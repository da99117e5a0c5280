/**
 The state of an allocator with headers: who may write where, and why every header survives.
 */
module MemGuard {
  import opened MemBlocks
  import opened MemAreas
  import opened MemPartition
  import opened MemTake
  import opened Multiples
  import opened MemHeader

  /** Start address to size asked for, of the blocks handed out. */
  type Asked = map<nat, nat>

  /** At the start of the range, or with room for a header and a whole number of four bytes behind it. */
  predicate AtOrBeyond(lo: nat, a: nat) {
    (a == lo || a >= lo + META) && Multiple(a - lo, 4)
  }

  /** A block handed out: its size leaves room for the next header, unless it is the whole range. */
  predicate Roomy(reserved: nat, size: nat, span: nat, unit: nat) {
    && 0 < size <= reserved && size + unit <= WORD64 && reserved >= SMALLEST
    && (size + META <= reserved || reserved == span)
  }

  ghost predicate Guarded(mem: Bytes, bs: seq<Block>, held: Held, asked: Asked, lo: nat, hi: nat, unit: nat) {
    && unit >= SMALLEST && Multiple(unit, 4) && lo <= hi && Gapped(bs) && Spread(bs, held, lo, hi) && held.Keys == asked.Keys && Mapped(mem, lo, hi - lo)
    && (forall i | 0 <= i < |bs| :: bs[i].len >= SMALLEST && AtOrBeyond(lo, bs[i].start))
    && (forall a | a in held :: AtOrBeyond(lo, a) && Roomy(held[a], asked[a], hi - lo, unit))
    && (forall a | a in held && a != lo :: held[a] == Reserve(asked[a], unit) && Intact(mem, a, asked[a], unit))
  }

  /**
   Addresses that may be written: by callers what they asked for, and by the allocator's tree and
   list nodes the free areas but for their last 16 bytes.
   */
  ghost predicate MayWrite(bs: seq<Block>, held: Held, asked: Asked, x: nat) {
    || (exists a | a in held && a in asked :: a <= x < a + asked[a])
    || (exists i | 0 <= i < |bs| :: bs[i].start <= x < bs[i].End() - META)
  }

  /** The header of a block lies where nobody may write. */
  lemma HeaderClear(mem: Bytes, bs: seq<Block>, held: Held, asked: Asked, lo: nat, hi: nat, unit: nat, s: nat, x: nat)
    requires Guarded(mem, bs, held, asked, lo, hi, unit) && s in held && s != lo && s - META <= x < s
    ensures !MayWrite(bs, held, asked, x)
  {
    hide Intact, Reserve, Mapped;
    HeldApart(bs, held, lo, hi, s);
    forall a | a in held
      ensures !(a <= x < a + asked[a])
    {
      if a != s {
        assert Apart(Block(a, held[a]), Block(s, held[s]));
        if held[a] == hi - lo { HeldApart(bs, held, lo, hi, a); }
      }
    }
    forall i | 0 <= i < |bs|
      ensures !(bs[i].start <= x < bs[i].End() - META)
    {
      assert Apart(bs[i], Block(s, held[s]));
    }
  }

  /** A write where it is allowed leaves every header. */
  lemma GuardedWrite(mem: Bytes, bs: seq<Block>, held: Held, asked: Asked, lo: nat, hi: nat, unit: nat, x: nat, v: nat)
    requires Guarded(mem, bs, held, asked, lo, hi, unit) && MayWrite(bs, held, asked, x) && x in mem
    ensures Guarded(mem[x := v], bs, held, asked, lo, hi, unit)
  {
    hide MayWrite, Reserve, HeaderBytes, Spread, Gapped;
    var mem' := mem[x := v];
    forall s | s in held && s != lo
      ensures Intact(mem', s, asked[s], unit)
    {
      if s - META <= x < s { HeaderClear(mem, bs, held, asked, lo, hi, unit, s, x); }
      assert Load(mem', s - META, META) == Load(mem, s - META, META);
    }
  }

  /** The other headers are where they were after one more is written. */
  lemma OtherHeaders(mem: Bytes, held: Held, asked: Asked, lo: nat, unit: nat, s: nat, h: seq<nat>)
    requires unit > 0 && s >= META && |h| == META && held.Keys <= asked.Keys
    requires forall a | a in held && a != lo :: Intact(mem, a, asked[a], unit)
    requires forall a | a in held && a != lo :: a + META <= s || s + META <= a
    ensures forall a | a in held && a != lo :: Intact(Store(mem, s - META, h), a, asked[a], unit)
  {
    hide HeaderBytes;
    forall a | a in held && a != lo
      ensures Intact(Store(mem, s - META, h), a, asked[a], unit)
    {
      LoadOther(mem, s - META, h, a - META, META);
    }
  }

  /** The memory after a block of this size was handed out at s. */
  function Marked(mem: Bytes, s: nat, lo: nat, size: nat, unit: nat): (mem': Bytes)
    requires unit > 0
  {
    if s == lo || s < META then mem else Store(mem, s - META, HeaderBytes(size, unit))
  }

  lemma TakenBlocks(bs: seq<Block>, lo: nat, k: nat, n: nat, whole: bool)
    requires k < |bs| && META <= n <= bs[k].len && Multiple(n, 4) && (!whole ==> bs[k].len - n >= SMALLEST)
    requires forall i | 0 <= i < |bs| :: bs[i].len >= SMALLEST && AtOrBeyond(lo, bs[i].start)
    requires lo <= bs[k].start
    ensures var r := Taken(bs, k, n, whole);
            forall i | 0 <= i < |r| :: r[i].len >= SMALLEST && AtOrBeyond(lo, r[i].start)
  {
    var r := Taken(bs, k, n, whole);
    MultipleSum(bs[k].start - lo, n, 4);
    assert AtOrBeyond(lo, bs[k].start + n) by { assert bs[k].start + n - lo == bs[k].start - lo + n; }
    forall i | 0 <= i < |r|
      ensures r[i].len >= SMALLEST && AtOrBeyond(lo, r[i].start)
    {
      if whole {
        assert r[i] == bs[if i < k then i else i + 1];
      } else {
        assert r[i] == if i == k then Block(bs[k].start + n, bs[k].len - n) else bs[i];
      }
    }
  }

  lemma StartsFar(held: Held, s: nat, n: nat)
    requires n >= SMALLEST && forall a | a in held :: held[a] >= SMALLEST && Apart(Block(a, held[a]), Block(s, n))
    ensures forall a | a in held :: a + META <= s || s + META <= a
  {
    forall a | a in held
      ensures a + META <= s || s + META <= a
    {
      assert Apart(Block(a, held[a]), Block(s, n));
    }
  }

  /** The blocks handed out before and their headers, after one more is handed out at s. */
  lemma HandedOut(mem: Bytes, held: Held, asked: Asked, lo: nat, hi: nat, unit: nat, s: nat, n: nat, size: nat)
    requires unit > 0 && s !in held && held.Keys == asked.Keys && lo <= hi && lo <= s && AtOrBeyond(lo, s) && s + META <= hi
    requires Mapped(mem, lo, hi - lo) && n >= SMALLEST
    requires forall a | a in held :: held[a] >= SMALLEST && Apart(Block(a, held[a]), Block(s, n))
    requires forall a | a in held && a != lo :: Intact(mem, a, asked[a], unit)
    ensures var mem' := Marked(mem, s, lo, size, unit);
            && mem'.Keys == mem.Keys && Mapped(mem', lo, hi - lo)
            && (forall a | a in held && a != lo :: Intact(mem', a, asked[a], unit))
            && (s != lo ==> Intact(mem', s, size, unit))
  {
    hide HeaderBytes, Load, Apart;
    if s != lo {
      assert forall a | a in held :: a + META <= s || s + META <= a by { StartsFar(held, s, n); }
      var h := HeaderBytes(size, unit);
      OtherHeaders(mem, held, asked, lo, unit, s, h);
      LoadStored(mem, s - META, h);
    }
  }

  /** A request the header scheme can serve from n bytes at s. */
  predicate Suits(n: nat, size: nat, span: nat, unit: nat)
    requires unit > 0
  {
    0 < size && size + unit <= WORD64 && (n == Reserve(size, unit) || (n == span && n == RoundUp(size, unit)))
  }

  lemma SuitsRoomy(n: nat, size: nat, span: nat, unit: nat)
    requires unit >= SMALLEST && Suits(n, size, span, unit)
    ensures Roomy(n, size, span, unit)
  {
    RoundedUp(size, unit);
    var r := RoundUp(size, unit);
    assert r >= unit by { if r < unit { SmallMultiple(r, unit); } }
  }

  /** What is set aside is a whole number of four bytes. */
  lemma SuitsFours(n: nat, size: nat, span: nat, unit: nat)
    requires unit >= SMALLEST && Multiple(unit, 4) && Suits(n, size, span, unit)
    ensures Multiple(n, 4)
  {
    RoundedUp(size, unit);
    MultipleOfMultiple(RoundUp(size, unit), unit, 4);
    MultipleSum(RoundUp(size, unit), META, 4);
  }

  lemma MultipleOfMultiple(n: nat, unit: nat, k: nat)
    requires unit > 0 && k > 0 && Multiple(n, unit) && Multiple(unit, k)
    ensures Multiple(n, k)
  {
    MultipleTimes(n, unit);
    MultipleTimes(unit, k);
    assert n == (n / unit * (unit / k)) * k;
    TimesMultiple(n / unit * (unit / k), k);
  }

  lemma SmallMultiple(r: nat, unit: nat)
    requires unit > 0 && Multiple(r, unit) && r < unit
    ensures r == 0
  {
  }

  /** Handing out a block and writing its header keeps every header. */
  lemma GuardedTaken(mem: Bytes, bs: seq<Block>, held: Held, asked: Asked, lo: nat, hi: nat, unit: nat,
                     k: nat, n: nat, whole: bool, size: nat)
    requires Guarded(mem, bs, held, asked, lo, hi, unit) && k < |bs| && Suits(n, size, hi - lo, unit)
    requires n <= bs[k].len && (!whole ==> bs[k].len - n >= SMALLEST)
    ensures var s := bs[k].start;
            && s !in held && lo <= s && s + n <= hi && AtOrBeyond(lo, s)
            && Guarded(Marked(mem, s, lo, size, unit), Taken(bs, k, n, whole), held[s := n], asked[s := size], lo, hi, unit)
  {
    hide Suits, Intact, Reserve, Marked, Gapped, Taken, Multiple;
    var s := bs[k].start;
    SuitsRoomy(n, size, hi - lo, unit);
    SuitsFours(n, size, hi - lo, unit);
    SpreadTaken(bs, held, lo, hi, k, n, whole);
    TakenGapped(bs, k, n, whole);
    TakenBlocks(bs, lo, k, n, whole);
    SpreadPairs(Taken(bs, k, n, whole), held[s := n], lo, hi, held, s, n);
    hide Spread;
    HandedOut(mem, held, asked, lo, hi, unit, s, n, size);
    ReserveUnlessFirst(n, size, s, lo, hi, unit);
  }

  lemma SpreadPairs(bs: seq<Block>, m': Held, lo: nat, hi: nat, m: Held, s: nat, n: nat)
    requires Spread(bs, m', lo, hi) && m' == m[s := n] && s !in m
    ensures forall a | a in m :: Apart(Block(a, m[a]), Block(s, n))
  {
    assert forall a | a in m :: a in m' && m'[a] == m[a] && a != s && Apart(Block(a, m'[a]), Block(s, m'[s]));
  }

  lemma ReserveUnlessFirst(n: nat, size: nat, s: nat, lo: nat, hi: nat, unit: nat)
    requires unit > 0 && lo <= hi && Suits(n, size, hi - lo, unit) && lo <= s && s + n <= hi
    ensures s != lo ==> n == Reserve(size, unit)
  {
  }

  /** Taking a block back keeps the other headers. */
  lemma GuardedJoined(mem: Bytes, before: seq<Block>, after: seq<Block>, held: Held, asked: Asked, lo: nat, hi: nat, unit: nat, a: nat)
    requires Guarded(mem, before + after, held, asked, lo, hi, unit) && a in held && Fits(before, Block(a, held[a]), after)
    ensures Guarded(mem, Joined(before, Block(a, held[a]), after), held - {a}, asked - {a}, lo, hi, unit)
  {
    hide Intact, Reserve, Roomy, Fits, Joined, Gapped, Spread, Mapped;
    var b := Block(a, held[a]);
    assert b.len > 0 by { assert Roomy(held[a], asked[a], hi - lo, unit); RoomyLong(held[a], asked[a], hi - lo, unit); }
    SpreadJoined(before, after, held, lo, hi, a);
    JoinedGapped(before, b, after);
    RoomyLong(held[a], asked[a], hi - lo, unit);
    JoinedBlocks(before, b, after, lo);
  }

  lemma RoomyLong(reserved: nat, size: nat, span: nat, unit: nat)
    requires Roomy(reserved, size, span, unit)
    ensures reserved >= SMALLEST
  {
  }

  lemma JoinedBlocks(before: seq<Block>, b: Block, after: seq<Block>, lo: nat)
    requires Gapped(before + after) && b.len >= SMALLEST && Fits(before, b, after) && AtOrBeyond(lo, b.start)
    requires forall i | 0 <= i < |before + after| :: (before + after)[i].len >= SMALLEST && AtOrBeyond(lo, (before + after)[i].start)
    ensures var r := Joined(before, b, after);
            forall i | 0 <= i < |r| :: r[i].len >= SMALLEST && AtOrBeyond(lo, r[i].start)
  {
    hide Joined, Gapped, Fits;
    var left, m, right := JoinedParts(before, b, after);
    assert forall i | 0 <= i < |before| :: before[i] == (before + after)[i];
    assert forall i | 0 <= i < |after| :: after[i] == (before + after)[|before| + i];
    var r := left + [m] + right;
    forall i | 0 <= i < |r|
      ensures r[i].len >= SMALLEST && AtOrBeyond(lo, r[i].start)
    {
      if i < |left| {
        assert r[i] == before[i];
      } else if i > |left| {
        assert r[i] == after[|after| - |right| + (i - |left| - 1)];
      }
    }
  }

  /** What callers hold is byte for byte what it was. */
  ghost predicate DataKept(mem: Bytes, mem': Bytes, held: Held, asked: Asked) {
    forall a, x | a in held && a in asked && a <= x < a + asked[a] && x in mem :: x in mem' && mem'[x] == mem[x]
  }

  /** Writing the header of a new block touches no caller's data. */
  lemma MarkedKeepsData(mem: Bytes, mem': Bytes, bs: seq<Block>, held: Held, asked: Asked, lo: nat, hi: nat, unit: nat, s: nat, size: nat)
    requires Guarded(mem', bs, held, asked, lo, hi, unit) && s in held && mem' == Marked(mem, s, lo, size, unit)
    ensures DataKept(mem, mem', held, asked)
  {
    hide Guarded, HeaderBytes;
    forall a, x | a in held && a in asked && a <= x < a + asked[a] && x in mem
      ensures x in mem' && mem'[x] == mem[x]
    {
      if s != lo && s - META <= x < s { HeaderClear(mem', bs, held, asked, lo, hi, unit, s, x); }
    }
  }

  lemma DataKeptFewer(mem: Bytes, mem': Bytes, held: Held, asked: Asked, held': Held, asked': Asked)
    requires DataKept(mem, mem', held', asked')
    requires forall a | a in held && a in asked :: a in held' && a in asked' && asked'[a] == asked[a]
    ensures DataKept(mem, mem', held, asked)
  {
  }
}
