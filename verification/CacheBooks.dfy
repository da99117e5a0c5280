/**
 What the allocator cache keeps account of: every block of the allocator is in a tier's list or
 with a caller, and the sizes add up.
 */
module CacheBooks {
  import opened Sequences
  import opened CacheTiers
  import opened CacheWords
  import opened MemPartition
  import opened PoolState

  /** The blocks callers have, with their lengths. */
  ghost function Out(held: Held, owner: Owners): (m: Held) {
    map a | a in held && a in owner && owner[a] == User :: held[a]
  }

  /** A block of some tier, times base blocks long. */
  ghost predicate OfTier(policy: Policy, base: nat, count: nat, times: nat, len: nat) {
    exists i | 0 <= i < count :: times == TimesOf(policy, i) && len == TierSize(policy, base, i)
  }

  ghost predicate Sized(held: Held, lists: Lists, policy: Policy, base: nat, count: nat) {
    && (forall i: nat :: i in lists <==> i < count)
    && (forall i, x | i in lists && x in lists[i] :: x in held && held[x] == TierSize(policy, base, i))
  }

  /** The recorded sizes are those of callers' blocks, and of some tier. */
  ghost predicate Recorded(held: Held, owner: Owners, sizes: Held, policy: Policy, base: nat, count: nat) {
    forall a | a in sizes :: a in held && a in owner && owner[a] == User && OfTier(policy, base, count, sizes[a], held[a])
  }

  ghost predicate Summed(held: Held, owner: Owners, total: nat, hi: nat) {
    && owner.Keys == held.Keys && (forall a | a in held :: a < hi)
    && HeldTotal(held, hi) == HeldTotal(Out(held, owner), hi) + total
  }

  ghost predicate Books(held: Held, owner: Owners, lists: Lists, sizes: Held, total: nat, policy: Policy, base: nat, count: nat, hi: nat) {
    Sized(held, lists, policy, base, count) && Recorded(held, owner, sizes, policy, base, count) && Summed(held, owner, total, hi)
  }

  // ----- one block moves

  lemma OutAdd(held: Held, owner: Owners, v: nat)
    requires v in held && v in owner && owner[v] != User
    ensures v !in Out(held, owner) && Out(held, owner[v := User]) == Out(held, owner)[v := held[v]]
  {
  }

  lemma OutDrop(held: Held, owner: Owners, v: nat, o: Owner)
    requires v in held && v in owner && owner[v] == User && o != User
    ensures v in Out(held, owner) && Out(held, owner[v := o]) == Out(held, owner) - {v}
  {
  }

  /** From a list to a caller. */
  lemma SummedOut(held: Held, owner: Owners, total: nat, hi: nat, v: nat)
    requires Summed(held, owner, total, hi) && v in held && owner[v] != User
    ensures held[v] <= total && Summed(held, owner[v := User], total - held[v], hi)
  {
    OutAdd(held, owner, v);
    HeldTotalAdd(Out(held, owner), v, held[v], hi);
    SubTotal(Out(held, owner[v := User]), held, hi);
  }

  lemma {:induction false} SubTotal(m: Held, m': Held, n: nat)
    requires forall a | a in m :: a in m' && m'[a] == m[a]
    ensures HeldTotal(m, n) <= HeldTotal(m', n)
  {
    if n > 0 { SubTotal(m, m', n - 1); }
  }

  /** From a caller to a list. */
  lemma SummedIn(held: Held, owner: Owners, total: nat, hi: nat, v: nat, o: Owner)
    requires Summed(held, owner, total, hi) && v in held && owner[v] == User && o != User
    ensures Summed(held, owner[v := o], total + held[v], hi)
  {
    OutDrop(held, owner, v, o);
    HeldTotalDrop(Out(held, owner), v, hi);
  }

  /** A new block for a list. */
  lemma SummedNew(held: Held, owner: Owners, total: nat, hi: nat, v: nat, n: nat, o: Owner)
    requires Summed(held, owner, total, hi) && v !in held && v < hi
    ensures Summed(held[v := n], owner[v := o], if o == User then total else total + n, hi)
  {
    HeldTotalAdd(held, v, n, hi);
    if o == User {
      assert Out(held[v := n], owner[v := o]) == Out(held, owner)[v := n];
      HeldTotalAdd(Out(held, owner), v, n, hi);
    } else {
      assert Out(held[v := n], owner[v := o]) == Out(held, owner);
    }
  }

  /** A caller's block goes back to the allocator. */
  lemma SummedGone(held: Held, owner: Owners, total: nat, hi: nat, v: nat)
    requires Summed(held, owner, total, hi) && v in held && owner[v] == User
    ensures Summed(held - {v}, owner - {v}, total, hi)
  {
    assert Out(held - {v}, owner - {v}) == Out(held, owner) - {v};
    HeldTotalDrop(Out(held, owner), v, hi);
    HeldTotalDrop(held, v, hi);
  }

  /** n blocks of one length. */
  function Many(n: nat, len: nat): (r: nat) {
    if n == 0 then 0 else Many(n - 1, len) + len
  }

  lemma {:induction false} ManyTimes(n: nat, len: nat)
    ensures Many(n, len) == n * len
  {
    if n > 0 {
      ManyTimes(n - 1, len);
      assert n * len == (n - 1) * len + len;
    }
  }

  lemma GiveNext(owner: Owners, r: seq<nat>, v: nat, o: Owner)
    requires v in owner && v !in r
    ensures Give(owner, r, o)[v := o] == Give(owner, r + [v], o) && Give(owner, r, o)[v] == owner[v]
  {
  }

  /** Blocks of one length, all to callers. */
  lemma {:induction false} SummedAllOut(held: Held, owner: Owners, total: nat, hi: nat, t: seq<nat>, len: nat)
    requires Summed(held, owner, total, hi) && NoRepeats(t)
    requires forall x | x in t :: x in held && held[x] == len && x in owner && owner[x] != User
    ensures Many(|t|, len) <= total && Summed(held, Give(owner, t, User), total - Many(|t|, len), hi)
  {
    hide Summed, NoRepeats;
    if t == [] {
      assert Give(owner, t, User) == owner;
    } else {
      var n := |t| - 1;
      var r, v := t[..n], t[n];
      assert t == r + [v];
      NoRepeatsParts(r, [v]);
      assert v in [v] && v !in r;
      SummedAllOut(held, owner, total, hi, r, len);
      GiveNext(owner, r, v, User);
      SummedOut(held, Give(owner, r, User), total - Many(n, len), hi, v);
    }
  }

  // ----- the books after each operation

  lemma BooksPop(held: Held, owner: Owners, lists: Lists, sizes: Held, total: nat, policy: Policy, base: nat, count: nat, hi: nat,
                 i: nat, v: nat, t: seq<nat>)
    requires Books(held, owner, lists, sizes, total, policy, base, count, hi) && i in lists && lists[i] == [v] + t
    requires v in owner && owner[v] == InCache(i)
    ensures TierSize(policy, base, i) <= total && v in held && held[v] == TierSize(policy, base, i)
    ensures Books(held, owner[v := User], lists[i := t], sizes[v := TimesOf(policy, i)], total - TierSize(policy, base, i),
                  policy, base, count, hi)
  {
    hide Summed, TierSize, TimesOf;
    assert v in lists[i];
    assert forall x | x in t :: x in lists[i];
    InHeld(held, owner, total, hi, v);
    SummedOut(held, owner, total, hi, v);
  }

  lemma InHeld(held: Held, owner: Owners, total: nat, hi: nat, v: nat)
    requires Summed(held, owner, total, hi)
    ensures v in held <==> v in owner
  {
  }

  lemma BooksPush(held: Held, owner: Owners, lists: Lists, sizes: Held, total: nat, policy: Policy, base: nat, count: nat, hi: nat,
                  i: nat, v: nat)
    requires Books(held, owner, lists, sizes, total, policy, base, count, hi) && i in lists && v in sizes
    requires held[v] == TierSize(policy, base, i)
    ensures Books(held, owner[v := InCache(i)], lists[i := [v] + lists[i]], sizes - {v}, total + TierSize(policy, base, i),
                  policy, base, count, hi)
  {
    hide Summed, TierSize, TimesOf;
    SummedIn(held, owner, total, hi, v, InCache(i));
  }

  lemma BooksFill(held: Held, owner: Owners, lists: Lists, sizes: Held, total: nat, policy: Policy, base: nat, count: nat, hi: nat,
                  i: nat, v: nat)
    requires Books(held, owner, lists, sizes, total, policy, base, count, hi) && i in lists && v !in held && v < hi
    ensures Books(held[v := TierSize(policy, base, i)], owner[v := InCache(i)], lists[i := lists[i] + [v]], sizes,
                  total + TierSize(policy, base, i), policy, base, count, hi)
  {
    hide Summed, TierSize, TimesOf;
    SummedNew(held, owner, total, hi, v, TierSize(policy, base, i), InCache(i));
    assert forall x | x in lists[i] + [v] :: x in lists[i] || x == v;
  }

  lemma BooksCut(held: Held, owner: Owners, lists: Lists, sizes: Held, total: nat, policy: Policy, base: nat, count: nat, hi: nat,
                 i: nat, s: seq<nat>, t: seq<nat>)
    requires Books(held, owner, lists, sizes, total, policy, base, count, hi) && i in lists && lists[i] == s + t
    requires OwnersOk(owner, [], lists)
    ensures Many(|t|, TierSize(policy, base, i)) <= total
    ensures Books(held, Give(owner, t, User), lists[i := s], sizes, total - Many(|t|, TierSize(policy, base, i)), policy, base, count, hi)
    ensures forall x | x in t :: x !in sizes && x in held
  {
    hide Summed, TierSize, TimesOf, OwnersOk, NoRepeats;
    ToUsers(owner, [], lists, i, s, t);
    assert forall x | x in s || x in t :: x in lists[i];
    SummedAllOut(held, owner, total, hi, t, TierSize(policy, base, i));
  }

  lemma BooksDirect(held: Held, owner: Owners, lists: Lists, sizes: Held, total: nat, policy: Policy, base: nat, count: nat, hi: nat,
                    v: nat, n: nat)
    requires Books(held, owner, lists, sizes, total, policy, base, count, hi) && v !in held && v < hi
    ensures Books(held[v := n], owner[v := User], lists, sizes, total, policy, base, count, hi)
  {
    hide Summed, TierSize, TimesOf;
    SummedNew(held, owner, total, hi, v, n, User);
  }

  lemma BooksLeave(held: Held, owner: Owners, lists: Lists, sizes: Held, total: nat, policy: Policy, base: nat, count: nat, hi: nat, v: nat)
    requires Books(held, owner, lists, sizes, total, policy, base, count, hi) && v in held && v in owner && owner[v] == User && v !in sizes
    requires OwnersOk(owner, [], lists)
    ensures Books(held - {v}, owner - {v}, lists, sizes, total, policy, base, count, hi)
  {
    hide Summed, TierSize, TimesOf, NoRepeats;
    SummedGone(held, owner, total, hi, v);
    assert forall i | i in lists :: v !in lists[i];
  }

  // ----- the accounts, whatever the options

  datatype Config = Config(policy: Policy, base: nat, count: nat, perTier: nat)

  ghost predicate ConfigOk(c: Config) {
    TierCountOk(c.policy, c.count) && 4 <= c.perTier <= 8192 && IsBase(c.base) && c.base >= 4096
  }

  /** Options under which no size is lost in 32 or 16 bits. */
  ghost predicate Exact(c: Config) {
    c.count > 0 && Narrow(c.policy, c.base, c.count) && Light(c.policy, c.base, c.count, c.perTier)
  }

  /** What holds under all options: blocks in lists or with callers, and sizes recorded for callers' blocks. */
  ghost predicate Kept(held: Held, owner: Owners, lists: Lists, sizes: Held, count: nat, hi: nat) {
    && owner.Keys == held.Keys && (forall a | a in held :: 0 < a < hi) && (forall i: nat :: i in lists <==> i < count)
    && (forall a | a in sizes :: a in owner && owner[a] == User)
  }

  /** And under exact options the books are right, too. */
  ghost predicate Accounts(c: Config, held: Held, owner: Owners, lists: Lists, sizes: Held, kb: nat, hi: nat) {
    && Kept(held, owner, lists, sizes, c.count, hi)
    && (Exact(c) ==> Books(held, owner, lists, sizes, kb * 1024, c.policy, c.base, c.count, hi))
  }

  /** 64-bit sums and differences. */
  function Plus64(a: nat, b: nat): (n: nat) {
    (a + b) % 0x1_0000_0000_0000_0000
  }

  function Minus64(a: nat, b: nat): (n: nat) {
    (a - b) % 0x1_0000_0000_0000_0000
  }

  lemma TierNumbers(c: Config, i: nat, address: nat)
    requires ConfigOk(c) && Exact(c) && i < c.count && address < ADDRESSES
    ensures Request(c.policy, c.base, i) == TierSize(c.policy, c.base, i) == BlockKB(c.policy, c.base, i) * 1024
    ensures TimesKept(c.policy, c.base, i, address) == TimesOf(c.policy, i)
    ensures HalfKB(c.policy, c.base, i, c.perTier) == BlockKB(c.policy, c.base, i) * c.perTier
  {
    hide Narrow, Light, Request, BlockKB, HalfKB, TimesKept, TierSize, TimesOf, TierBack, IsBase;
    BaseFacts(c.base);
    NarrowTier(c.policy, c.base, c.count, i, address);
    LightTier(c.policy, c.base, c.count, c.perTier, i);
  }

  /** A sum of sizes inside the range does not wrap around. */
  lemma NoWrap(held: Held, owner: Owners, a: nat, b: nat, hi: nat)
    requires Summed(held, owner, (a + b) * 1024, hi) && HeldTotal(held, hi) <= ADDRESSES
    ensures Plus64(a, b) == a + b
  {
  }

  lemma NoBorrow(a: nat, b: nat)
    requires b * 1024 <= a * 1024 && a < 0x1_0000_0000_0000_0000
    ensures Minus64(a, b) == a - b && (a - b) * 1024 == a * 1024 - b * 1024
  {
  }

  lemma KBSmall(held: Held, owner: Owners, kb: nat, hi: nat)
    requires Summed(held, owner, kb * 1024, hi) && HeldTotal(held, hi) <= ADDRESSES
    ensures kb < 0x1_0000_0000_0000_0000
  {
  }

  lemma BooksSum(held: Held, owner: Owners, lists: Lists, sizes: Held, total: nat, policy: Policy, base: nat, count: nat, hi: nat)
    requires Books(held, owner, lists, sizes, total, policy, base, count, hi)
    ensures Summed(held, owner, total, hi) && Sized(held, lists, policy, base, count)
  {
  }

  /** The first block of tier i goes to a caller. */
  lemma AccountsPop(c: Config, held: Held, owner: Owners, lists: Lists, sizes: Held, kb: nat, hi: nat, i: nat, v: nat, t: seq<nat>)
    requires ConfigOk(c) && Accounts(c, held, owner, lists, sizes, kb, hi) && i in lists && lists[i] == [v] + t
    requires v in owner && owner[v] == InCache(i) && hi <= ADDRESSES && HeldTotal(held, hi) <= ADDRESSES
    ensures v in held && i < c.count && (Exact(c) ==> held[v] == TierSize(c.policy, c.base, i))
    ensures Accounts(c, held, owner[v := User], lists[i := t], sizes[v := TimesKept(c.policy, c.base, i, v)],
                     Minus64(kb, BlockKB(c.policy, c.base, i)), hi)
  {
    hide Books, Exact, TierSize, TimesOf, TimesKept, BlockKB, IsBase, Summed, Minus64;
    if Exact(c) {
      TierNumbers(c, i, v);
      BooksPop(held, owner, lists, sizes, kb * 1024, c.policy, c.base, c.count, hi, i, v, t);
      BooksSum(held, owner, lists, sizes, kb * 1024, c.policy, c.base, c.count, hi);
      KBSmall(held, owner, kb, hi);
      NoBorrow(kb, BlockKB(c.policy, c.base, i));
    }
  }

  /** A caller's block goes to the tier its record names. */
  lemma AccountsPush(c: Config, held: Held, owner: Owners, lists: Lists, sizes: Held, kb: nat, hi: nat, i: nat, v: nat)
    requires ConfigOk(c) && Accounts(c, held, owner, lists, sizes, kb, hi) && v in sizes && i in lists
    requires i == TierForTimes(c.policy, sizes[v], c.base) && hi <= ADDRESSES && HeldTotal(held, hi) <= ADDRESSES
    ensures v in held && v in owner && owner[v] == User && (Exact(c) ==> held[v] == TierSize(c.policy, c.base, i))
    ensures Accounts(c, held, owner[v := InCache(i)], lists[i := [v] + lists[i]], sizes - {v}, Plus64(kb, BlockKB(c.policy, c.base, i)), hi)
  {
    hide Books, Exact, TierSize, TimesOf, BlockKB, IsBase, Summed, Plus64, TierForTimes, OfTier;
    BaseFacts(c.base);
    if Exact(c) {
      FromTier(held, owner, lists, sizes, kb * 1024, c.policy, c.base, c.count, hi, v);
      TierNumbers(c, i, v);
      BooksPush(held, owner, lists, sizes, kb * 1024, c.policy, c.base, c.count, hi, i, v);
      assert kb * 1024 + TierSize(c.policy, c.base, i) == (kb + BlockKB(c.policy, c.base, i)) * 1024;
      BooksSum(held, owner[v := InCache(i)], lists[i := [v] + lists[i]], sizes - {v}, (kb + BlockKB(c.policy, c.base, i)) * 1024,
               c.policy, c.base, c.count, hi);
      NoWrap(held, owner[v := InCache(i)], kb, BlockKB(c.policy, c.base, i), hi);
    }
  }

  /** A recorded block goes back to the tier whose size it has. */
  lemma FromTier(held: Held, owner: Owners, lists: Lists, sizes: Held, total: nat, policy: Policy, base: nat, count: nat, hi: nat, v: nat)
    requires Books(held, owner, lists, sizes, total, policy, base, count, hi) && v in sizes && base > 0 && TierCountOk(policy, count)
    ensures v in held && v in owner && owner[v] == User
    ensures var i := TierForTimes(policy, sizes[v], base); i in lists && i < count && held[v] == TierSize(policy, base, i)
  {
    hide TierFor;
    var i :| 0 <= i < count && sizes[v] == TimesOf(policy, i) && held[v] == TierSize(policy, base, i);
    assert sizes[v] * base == TierSize(policy, base, i);
    TierReturns(policy, base, count, i);
  }

  /** Under exact options every recorded block has a tier. */
  lemma HasRecordedTier(c: Config, held: Held, owner: Owners, lists: Lists, sizes: Held, kb: nat, hi: nat, v: nat)
    requires ConfigOk(c) && Accounts(c, held, owner, lists, sizes, kb, hi) && v in sizes && Exact(c)
    ensures c.base > 0 && TierForTimes(c.policy, sizes[v], c.base) < c.count
  {
    hide Books, Exact, TierForTimes, IsBase;
    BaseFacts(c.base);
    FromTier(held, owner, lists, sizes, kb * 1024, c.policy, c.base, c.count, hi, v);
  }

  /** A record is dropped. */
  lemma AccountsForget(c: Config, held: Held, owner: Owners, lists: Lists, sizes: Held, kb: nat, hi: nat, v: nat)
    requires Accounts(c, held, owner, lists, sizes, kb, hi)
    ensures Accounts(c, held, owner, lists, sizes - {v}, kb, hi)
  {
    hide Exact, TierSize, TimesOf, Summed, Sized;
  }

  /** A new block for tier i's list. */
  lemma AccountsFill(c: Config, held: Held, owner: Owners, lists: Lists, sizes: Held, kb: nat, hi: nat, i: nat, v: nat)
    requires ConfigOk(c) && Accounts(c, held, owner, lists, sizes, kb, hi) && i in lists && v !in held && 0 < v < hi
    requires hi <= ADDRESSES && HeldTotal(held[v := Request(c.policy, c.base, i)], hi) <= ADDRESSES
    ensures Accounts(c, held[v := Request(c.policy, c.base, i)], owner[v := InCache(i)], lists[i := lists[i] + [v]], sizes,
                     Plus64(kb, BlockKB(c.policy, c.base, i)), hi)
  {
    hide Books, Exact, TierSize, TimesOf, BlockKB, IsBase, Summed, Plus64, Request;
    if Exact(c) {
      TierNumbers(c, i, v);
      BooksFill(held, owner, lists, sizes, kb * 1024, c.policy, c.base, c.count, hi, i, v);
      assert kb * 1024 + TierSize(c.policy, c.base, i) == (kb + BlockKB(c.policy, c.base, i)) * 1024;
      BooksSum(held[v := Request(c.policy, c.base, i)], owner[v := InCache(i)], lists[i := lists[i] + [v]], sizes,
               (kb + BlockKB(c.policy, c.base, i)) * 1024, c.policy, c.base, c.count, hi);
      NoWrap(held[v := Request(c.policy, c.base, i)], owner[v := InCache(i)], kb, BlockKB(c.policy, c.base, i), hi);
    }
  }

  /** Half of a full list is cut off. */
  lemma AccountsCut(c: Config, held: Held, owner: Owners, lists: Lists, sizes: Held, kb: nat, hi: nat, i: nat, s: seq<nat>, t: seq<nat>)
    requires ConfigOk(c) && Accounts(c, held, owner, lists, sizes, kb, hi) && i in lists && lists[i] == s + t && |t| == c.perTier
    requires OwnersOk(owner, [], lists) && hi <= ADDRESSES && HeldTotal(held, hi) <= ADDRESSES
    ensures Accounts(c, held, Give(owner, t, User), lists[i := s], sizes, Minus64(kb, HalfKB(c.policy, c.base, i, c.perTier)), hi)
    ensures forall x | x in t :: x !in sizes && x in held
  {
    hide Books, Exact, TierSize, TimesOf, BlockKB, HalfKB, IsBase, Summed, Minus64, OwnersOk, NoRepeats;
    ToUsers(owner, [], lists, i, s, t);
    assert Kept(held, Give(owner, t, User), lists[i := s], sizes, c.count, hi);
    if Exact(c) {
      TierNumbers(c, i, 0);
      BooksCut(held, owner, lists, sizes, kb * 1024, c.policy, c.base, c.count, hi, i, s, t);
      ManyTimes(c.perTier, TierSize(c.policy, c.base, i));
      HalfIs(c.perTier, BlockKB(c.policy, c.base, i), TierSize(c.policy, c.base, i), HalfKB(c.policy, c.base, i, c.perTier));
      BooksSum(held, owner, lists, sizes, kb * 1024, c.policy, c.base, c.count, hi);
      KBSmall(held, owner, kb, hi);
      NoBorrow(kb, HalfKB(c.policy, c.base, i, c.perTier));
    }
  }

  lemma HalfIs(n: nat, kb: nat, size: nat, half: nat)
    requires kb * 1024 == size && half == kb * n
    ensures half * 1024 == n * size
  {
    assert n * (kb * 1024) == kb * n * 1024;
  }

  /** A block goes from the allocator straight to a caller. */
  lemma AccountsDirect(c: Config, held: Held, owner: Owners, lists: Lists, sizes: Held, kb: nat, hi: nat, v: nat, n: nat)
    requires Accounts(c, held, owner, lists, sizes, kb, hi) && v !in held && 0 < v < hi
    ensures Accounts(c, held[v := n], owner[v := User], lists, sizes, kb, hi)
  {
    hide Books, Exact;
    if Exact(c) { BooksDirect(held, owner, lists, sizes, kb * 1024, c.policy, c.base, c.count, hi, v, n); }
  }

  /** A caller's block without a record goes back to the allocator. */
  lemma AccountsLeave(c: Config, held: Held, owner: Owners, lists: Lists, sizes: Held, kb: nat, hi: nat, v: nat)
    requires Accounts(c, held, owner, lists, sizes, kb, hi) && v in held && v in owner && owner[v] == User && v !in sizes
    requires OwnersOk(owner, [], lists)
    ensures Accounts(c, held - {v}, owner - {v}, lists, sizes, kb, hi)
  {
    hide Books, Exact, OwnersOk;
    if Exact(c) { BooksLeave(held, owner, lists, sizes, kb * 1024, c.policy, c.base, c.count, hi, v); }
  }

  /** Tiers with nothing in them. */
  function NoTiers(n: nat): (m: map<nat, TCache>)
    ensures forall i: nat :: i in m <==> i < n
    ensures forall i | i in m :: m[i] == TCache(0, 0)
  {
    if n == 0 then map[] else NoTiers(n - 1)[n - 1 := TCache(0, 0)]
  }

  /** With empty lists and nothing recorded the accounts are in order. */
  lemma AccountsOpened(c: Config, held: Held, owner: Owners, lists: Lists, hi: nat)
    requires (forall a | a in held :: 0 < a < hi) && owner.Keys == held.Keys && (forall a | a in owner :: owner[a] == User)
    requires (forall i: nat :: i in lists <==> i < c.count) && forall i | i in lists :: lists[i] == []
    ensures Accounts(c, held, owner, lists, map[], 0, hi) && Out(held, owner) == held && OwnersOk(owner, [], lists)
  {
    hide Exact;
    assert Out(held, owner) == held;
  }
}
