/**
 Every interleaving of Put and Remove behaves as a map whose operations take effect at once.
 */
module AddrMapProof {
  import opened AddrEntry
  import opened AddrMapSteps
  import opened AddrMapInv

  lemma ChainMember(m: Buckets, aux: Aux, n: nat, a: nat, b: Ref) returns (c: seq<Ref>, j: nat)
    requires SharedOk(m, aux, n) && OnChain(aux, n, a, b)
    ensures c == aux.chains[Home(a, n)] && j < |c| && c[j] == b
    ensures b in m && |m[b].slots| == SLOTS && b != Null
    ensures m[b].next == Behind(c, j)
  {
    hide PlacesOk, Apart;
    c := aux.chains[Home(a, n)];
    assert Chained(m, c);
    j :| 0 <= j < |c| && c[j] == b;
    ChainedAt(m, c, j);
  }

  lemma ChainedAt(m: Buckets, c: seq<Ref>, j: nat)
    requires Chained(m, c) && j < |c|
    ensures c[j] in m && m[c[j]].next == Behind(c, j)
  {
  }

  lemma SeeksOnChain(aux: Aux, n: nat, a: nat, b: Ref, i: nat)
    requires Seeks(aux, n, a, b, i)
    ensures OnChain(aux, n, a, b)
  {
  }

  /** Whatever a thread touches is there. */
  lemma Touches(m: Buckets, aux: Aux, n: nat, pc: Pc)
    requires SharedOk(m, aux, n) && PcOk(m, aux, n, pc)
    ensures Touchable(m, pc)
  {
    hide SharedOk, Seeks, OnChain;
    match pc
    case Idle =>
    case PutCount(_, _) =>
    case RemoveCount(_, _) =>
    case PutUnlock(_, _, _, _, _) =>
    case RemoveRead(a, b, i) =>
      SeeksOnChain(aux, n, a, b, i);
      var c, j := ChainMember(m, aux, n, a, b);
    case RemoveNext(a, b) =>
      SeeksOnChain(aux, n, a, b, SLOTS);
      var c, j := ChainMember(m, aux, n, a, b);
    case RemoveCas(a, b, i, _) =>
      ResidesHere(m, aux, n, a);
      var c, j := ChainMember(m, aux, n, a, b);
    case _ =>
      var c, j := ChainMember(m, aux, n, pc.a, pc.b);
  }

  lemma ResidesHere(m: Buckets, aux: Aux, n: nat, a: nat)
    requires SharedOk(m, aux, n) && a in aux.live
    ensures Resides(m, aux, n, a)
  {
  }

  // ----- steps that change nothing shared

  lemma FollowedOnChain(m: Buckets, aux: Aux, n: nat, a: nat, b: Ref)
    requires SharedOk(m, aux, n) && OnChain(aux, n, a, b)
    ensures b in m && (m[b].next != Null ==> OnChain(aux, n, a, m[b].next))
  {
    hide SharedOk;
    var c, j := ChainMember(m, aux, n, a, b);
    if m[b].next != Null { assert c[j + 1] == m[b].next; }
  }

  /** The slot just read holds another address: the search goes on behind it. */
  lemma SeeksPast(m: Buckets, aux: Aux, n: nat, a: nat, b: Ref, i: nat)
    requires SharedOk(m, aux, n) && Seeks(aux, n, a, b, i) && i < SLOTS && b in m && |m[b].slots| == SLOTS
    requires GetAddress(m[b].slots[i]) != a
    ensures Seeks(aux, n, a, b, i + 1)
  {
    hide BucksOk, ChainsOk, GetAddress, MakeEntry;
    var c := aux.chains[Home(a, n)];
    var j :| 0 <= j < |c| && c[j] == b && (a in aux.live ==> NotPassed(aux, c, a, j, i));
    if a in aux.live {
      assert Resides(m, aux, n, a);
      EntryRoundTrip(a, aux.live[a]);
      var k :| j <= k < |c| && c[k] == aux.place[a].b && (k == j ==> i <= aux.place[a].i);
      assert k == j ==> i + 1 <= aux.place[a].i;
      assert NotPassed(aux, c, a, j, i + 1);
    }
  }

  /** The slot just read holds the address: it is its place. */
  lemma FoundPlace(m: Buckets, aux: Aux, n: nat, a: nat, b: Ref, i: nat)
    requires SharedOk(m, aux, n) && i < SLOTS && b in m && |m[b].slots| == SLOTS
    requires GetAddress(m[b].slots[i]) == a && a != 0
    ensures a in aux.live && a in aux.place && aux.place[a] == Place(b, i) && m[b].slots[i] == MakeEntry(a, aux.live[a])
  {
    EmptyAddress();
    hide GetAddress, MakeEntry;
    assert Tenanted(m, aux, b, i);
    assert Resides(m, aux, n, a);
  }

  /** The whole bucket held other addresses: the place is in a later bucket, or the address is not in the map. */
  lemma SeeksOn(m: Buckets, aux: Aux, n: nat, a: nat, b: Ref)
    requires SharedOk(m, aux, n) && Seeks(aux, n, a, b, SLOTS)
    ensures b in m && (if m[b].next == Null then a !in aux.live else Seeks(aux, n, a, m[b].next, 0))
  {
    hide PlacesOk, Apart;
    var c := aux.chains[Home(a, n)];
    assert Chained(m, c);
    var j :| 0 <= j < |c| && c[j] == b && (a in aux.live ==> NotPassed(aux, c, a, j, SLOTS));
    ChainedAt(m, c, j);
    if a in aux.live {
      SmallPlace(m, aux, n, a);
      var k :| j <= k < |c| && c[k] == aux.place[a].b && (k == j ==> SLOTS <= aux.place[a].i);
      assert j < k;
      assert m[b].next == c[j + 1];
      assert NotPassed(aux, c, a, j + 1, 0);
    } else if j + 1 < |c| {
      assert c[j + 1] == m[b].next;
    }
  }

  lemma SmallPlace(m: Buckets, aux: Aux, n: nat, a: nat)
    requires SharedOk(m, aux, n) && a in aux.live
    ensures a in aux.place && aux.place[a].i < SLOTS
  {
    assert Resides(m, aux, n, a);
  }

  predicate Quiet(m: Buckets, pc: Pc)
    requires Touchable(m, pc)
  {
    match pc
    case PutCas(_, _, b, i, _) => m[b].slots[i] != 0
    case PutLock(_, _, _, _) => false
    case PutLink(_, _, _, _) => false
    case PutUnlock(_, _, _, _, _) => false
    case RemoveCas(_, _, _, _) => false
    case _ => true
  }

  lemma QuietStep(m: Buckets, aux: Aux, n: nat, pc: Pc, newBuck: Ref)
    requires SharedOk(m, aux, n) && PcOk(m, aux, n, pc) && Touchable(m, pc) && Quiet(m, pc)
    ensures NextBucks(m, pc, newBuck) == m
    ensures PcOk(m, aux, n, NextPc(m, pc, newBuck)) && LockOf(NextPc(m, pc, newBuck)) == LockOf(pc)
    ensures Legal(aux.live, EventOf(m, pc)) && After(aux.live, EventOf(m, pc)) == aux.live
  {
    hide SharedOk, Seeks, OnChain, GetAddress, MakeEntry;
    match pc
    case PutFollow(a, size, b, _) => FollowedOnChain(m, aux, n, a, b);
    case PutJoin(a, size, b, _) => FollowedOnChain(m, aux, n, a, b);
    case RemoveRead(a, b, i) =>
      SeeksOnChain(aux, n, a, b, i);
      var c, j := ChainMember(m, aux, n, a, b);
      if GetAddress(m[b].slots[i]) == a {
        FoundPlace(m, aux, n, a, b, i);
      } else {
        SeeksPast(m, aux, n, a, b, i);
      }
    case RemoveNext(a, b) => SeeksOn(m, aux, n, a, b);
    case _ =>
  }

  // ----- steps that write a slot

  /** Links are not touched. */
  ghost predicate SameLinks(m: Buckets, m': Buckets) {
    m'.Keys == m.Keys && forall b | b in m :: m'[b].next == m[b].next && |m'[b].slots| == |m[b].slots|
  }

  lemma ChainsSame(m: Buckets, m': Buckets, chains: map<Ref, seq<Ref>>, n: nat)
    requires ChainsOk(m, chains, n) && BucksOk(m) && SameLinks(m, m')
    ensures ChainsOk(m', chains, n) && BucksOk(m')
  {
    hide Apart;
    forall h | h in chains
      ensures Chained(m', chains[h])
    {
      assert Chained(m, chains[h]);
    }
  }

  ghost function Stores(aux: Aux, a: nat, size: nat, b: Ref, i: nat): (aux': Aux) {
    Aux(aux.live[a := size], aux.place[a := Place(b, i)], aux.chains)
  }

  ghost function Fetches(aux: Aux, a: nat): (aux': Aux) {
    Aux(aux.live - {a}, aux.place - {a}, aux.chains)
  }

  lemma StorePlaces(m: Buckets, aux: Aux, n: nat, a: nat, size: nat, b: Ref, i: nat)
    requires PlacesOk(m, aux, n) && Putting(aux, n, a, size, b) && b in m && i < |m[b].slots| && i < SLOTS && m[b].slots[i] == 0
    ensures PlacesOk(SetSlot(m, b, i, MakeEntry(a, size)), Stores(aux, a, size, b, i), n)
  {
    hide GetAddress, MakeEntry;
    EntryRoundTrip(a, size);
    var m', aux' := SetSlot(m, b, i, MakeEntry(a, size)), Stores(aux, a, size, b, i);
    forall x | x in aux'.live
      ensures Resides(m', aux', n, x)
    {
      if x != a {
        assert Resides(m, aux, n, x);
        EntryRoundTrip(x, aux.live[x]);
      }
    }
    forall c, k | c in m' && 0 <= k < |m'[c].slots|
      ensures Tenanted(m', aux', c, k)
    {
      assert Tenanted(m, aux, c, k);
    }
  }

  lemma FetchPlaces(m: Buckets, aux: Aux, n: nat, a: nat)
    requires PlacesOk(m, aux, n) && a in aux.live && aux.place[a].b in m && aux.place[a].i < |m[aux.place[a].b].slots|
    ensures var p := aux.place[a]; PlacesOk(SetSlot(m, p.b, p.i, 0), Fetches(aux, a), n)
  {
    hide GetAddress, MakeEntry;
    var p := aux.place[a];
    assert Resides(m, aux, n, a);
    EntryRoundTrip(a, aux.live[a]);
    var m', aux' := SetSlot(m, p.b, p.i, 0), Fetches(aux, a);
    forall x | x in aux'.live
      ensures Resides(m', aux', n, x)
    {
      assert Resides(m, aux, n, x);
      EntryRoundTrip(x, aux.live[x]);
    }
    forall c, k | c in m' && 0 <= k < |m'[c].slots|
      ensures Tenanted(m', aux', c, k)
    {
      assert Tenanted(m, aux, c, k);
      if Place(c, k) != p && m[c].slots[k] != 0 && GetAddress(m[c].slots[k]) == a { assert false; }
    }
  }

  lemma StoreStep(m: Buckets, aux: Aux, n: nat, pc: Pc, newBuck: Ref)
    requires SharedOk(m, aux, n) && PcOk(m, aux, n, pc) && pc.PutCas? && Touchable(m, pc) && m[pc.b].slots[pc.i] == 0
    ensures var m', aux' := NextBucks(m, pc, newBuck), Stores(aux, pc.a, pc.size, pc.b, pc.i);
            && SharedOk(m', aux', n) && Evolves(m, aux, m', aux', pc.a, Null) && PcOk(m', aux', n, NextPc(m, pc, newBuck))
  {
    hide PlacesOk, ChainsOk, BucksOk, MakeEntry;
    StorePlaces(m, aux, n, pc.a, pc.size, pc.b, pc.i);
    ChainsSame(m, NextBucks(m, pc, newBuck), aux.chains, n);
  }

  lemma FetchStep(m: Buckets, aux: Aux, n: nat, pc: Pc, newBuck: Ref)
    requires SharedOk(m, aux, n) && PcOk(m, aux, n, pc) && pc.RemoveCas? && Touchable(m, pc)
    ensures var m', aux' := NextBucks(m, pc, newBuck), Fetches(aux, pc.a);
            && SharedOk(m', aux', n) && Evolves(m, aux, m', aux', pc.a, Null) && PcOk(m', aux', n, NextPc(m, pc, newBuck))
            && EventOf(m, pc) == Fetched(pc.a, aux.live[pc.a])
  {
    hide PlacesOk, ChainsOk, BucksOk, MakeEntry, GetSize, GetAddress;
    ResidesHere(m, aux, n, pc.a);
    EntryRoundTrip(pc.a, aux.live[pc.a]);
    FetchPlaces(m, aux, n, pc.a);
    ChainsSame(m, NextBucks(m, pc, newBuck), aux.chains, n);
  }

  // ----- steps that lock, unlock or link

  lemma LockPlaces(m: Buckets, m': Buckets, aux: Aux, n: nat)
    requires PlacesOk(m, aux, n) && m'.Keys == m.Keys && forall b | b in m :: m'[b].slots == m[b].slots
    ensures PlacesOk(m', aux, n)
  {
    hide GetAddress, MakeEntry;
    forall x | x in aux.live
      ensures Resides(m', aux, n, x)
    {
      assert Resides(m, aux, n, x);
    }
    forall c, k | c in m' && 0 <= k < |m'[c].slots|
      ensures Tenanted(m', aux, c, k)
    {
      assert Tenanted(m, aux, c, k);
    }
  }

  lemma LockStep(m: Buckets, aux: Aux, n: nat, pc: Pc, newBuck: Ref)
    requires SharedOk(m, aux, n) && PcOk(m, aux, n, pc) && (pc.PutLock? || pc.PutUnlock?) && Touchable(m, pc)
    ensures var m' := NextBucks(m, pc, newBuck);
            && SharedOk(m', aux, n) && Evolves(m, aux, m', aux, pc.a, Writes(pc)) && PcOk(m', aux, n, NextPc(m, pc, newBuck))
            && Legal(aux.live, EventOf(m, pc)) && After(aux.live, EventOf(m, pc)) == aux.live
  {
    hide PlacesOk, ChainsOk, BucksOk;
    var m' := NextBucks(m, pc, newBuck);
    LockPlaces(m, m', aux, n);
    ChainsSame(m, m', aux.chains, n);
  }

  ghost function Links(aux: Aux, h: Ref, newBuck: Ref): (aux': Aux)
    requires h in aux.chains
  {
    aux.(chains := aux.chains[h := aux.chains[h] + [newBuck]])
  }

  lemma LinkChains(m: Buckets, chains: map<Ref, seq<Ref>>, n: nat, h: Ref, b: Ref, newBuck: Ref)
    requires ChainsOk(m, chains, n) && BucksOk(m) && h in chains && b in chains[h] && b in m && m[b].next == Null
    requires newBuck !in m && newBuck != Null
    ensures var m' := AddBucket(m, b, newBuck);
            ChainsOk(m', chains[h := chains[h] + [newBuck]], n) && BucksOk(m')
  {
    var m' := AddBucket(m, b, newBuck);
    var chains' := chains[h := chains[h] + [newBuck]];
    NewApart(m, chains, h, newBuck);
    var j := LastOf(m, chains[h], b);
    forall k | k in chains'
      ensures |chains'[k]| > 0 && chains'[k][0] == k && Chained(m', chains'[k])
    {
      LinkChained(m, chains, h, j, newBuck, k);
    }
  }

  lemma LastOf(m: Buckets, c: seq<Ref>, b: Ref) returns (j: nat)
    requires Chained(m, c) && b in c && b in m && m[b].next == Null && Null !in m
    ensures j + 1 == |c| && c[j] == b
  {
    j :| 0 <= j < |c| && c[j] == b;
    ChainedAt(m, c, j);
    assert forall k | 0 <= k < |c| :: c[k] in m && c[k] != Null;
  }

  lemma NewApart(m: Buckets, chains: map<Ref, seq<Ref>>, h: Ref, newBuck: Ref)
    requires Apart(chains) && h in chains && newBuck !in m && forall k | k in chains :: Chained(m, chains[k])
    ensures Apart(chains[h := chains[h] + [newBuck]])
    ensures forall k, j | k in chains && 0 <= j < |chains[k]| :: chains[k][j] != newBuck
  {
    forall k, j | k in chains && 0 <= j < |chains[k]|
      ensures chains[k][j] != newBuck
    {
      ChainedAt(m, chains[k], j);
    }
  }

  lemma LinkChained(m: Buckets, chains: map<Ref, seq<Ref>>, h: Ref, j: nat, newBuck: Ref, k: Ref)
    requires Apart(chains) && h in chains && k in chains && forall k | k in chains :: Chained(m, chains[k])
    requires j + 1 == |chains[h]| && newBuck !in m && chains[h][j] in m && newBuck != Null
    ensures var b := chains[h][j];
            Chained(AddBucket(m, b, newBuck), chains[h := chains[h] + [newBuck]][k])
  {
    var b := chains[h][j];
    var m' := AddBucket(m, b, newBuck);
    var c := chains[h := chains[h] + [newBuck]][k];
    assert c == if k == h then chains[h] + [newBuck] else chains[k];
    forall i | 0 <= i < |c|
      ensures c[i] in m' && m'[c[i]].next == Behind(c, i)
    {
      if i < |chains[k]| {
        ChainedAt(m, chains[k], i);
        assert c[i] == chains[k][i] && c[i] != newBuck;
        if c[i] == b { assert k == h && i == j; }
      }
    }
  }

  lemma LinkPlaces(m: Buckets, aux: Aux, n: nat, h: Ref, b: Ref, newBuck: Ref)
    requires PlacesOk(m, aux, n) && h in aux.chains && b in m && newBuck !in m
    ensures var m' := AddBucket(m, b, newBuck);
            PlacesOk(m', Links(aux, h, newBuck), n)
  {
    hide GetAddress, MakeEntry;
    var m' := AddBucket(m, b, newBuck);
    var aux' := Links(aux, h, newBuck);
    forall x | x in aux'.live
      ensures Resides(m', aux', n, x)
    {
      assert Resides(m, aux, n, x);
    }
    forall c, k | c in m' && 0 <= k < |m'[c].slots|
      ensures Tenanted(m', aux', c, k)
    {
      if c != newBuck { assert Tenanted(m, aux, c, k); }
    }
  }

  lemma LinkStep(m: Buckets, aux: Aux, n: nat, pc: Pc, newBuck: Ref)
    requires SharedOk(m, aux, n) && PcOk(m, aux, n, pc) && pc.PutLink? && newBuck !in m && newBuck != Null && Home(pc.a, n) in aux.chains
    ensures var m', aux' := NextBucks(m, pc, newBuck), Links(aux, Home(pc.a, n), newBuck);
            && SharedOk(m', aux', n) && Evolves(m, aux, m', aux', pc.a, pc.b) && PcOk(m', aux', n, NextPc(m, pc, newBuck))
  {
    hide PlacesOk, ChainsOk, BucksOk, Home;
    var h := Home(pc.a, n);
    LinkPlaces(m, aux, n, h, pc.b, newBuck);
    LinkChains(m, aux.chains, n, h, pc.b, newBuck);
  }
}
