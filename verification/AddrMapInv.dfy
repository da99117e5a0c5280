/**
 What holds between any two steps of the map: every stored address has one slot, in a bucket of
 its own chain, and what each thread may rely on wherever it is.
 */
module AddrMapInv {
  import opened AddrEntry
  import opened AddrMapSteps

  datatype Place = Place(b: Ref, i: nat)

  /** The map the buckets stand for, the slot of each address, and the chains of buckets. */
  datatype Aux = Aux(live: map<nat, nat>, place: map<nat, Place>, chains: map<Ref, seq<Ref>>)

  ghost predicate BucksOk(m: Buckets) {
    Null !in m && forall b | b in m :: |m[b].slots| == SLOTS
  }

  function Behind(c: seq<Ref>, j: nat): (b: Ref) {
    if j + 1 < |c| then c[j + 1] else Null
  }

  /** c is linked through next, in m. */
  ghost predicate Chained(m: Buckets, c: seq<Ref>) {
    forall j | 0 <= j < |c| :: c[j] in m && m[c[j]].next == Behind(c, j)
  }

  /** No bucket stands at two places of the chains. */
  ghost predicate Apart(chains: map<Ref, seq<Ref>>) {
    forall h, k, i, j | h in chains && k in chains && 0 <= i < |chains[h]| && 0 <= j < |chains[k]| && chains[h][i] == chains[k][j] ::
      h == k && i == j
  }

  ghost predicate ChainsOk(m: Buckets, chains: map<Ref, seq<Ref>>, n: nat) {
    && n > 0
    && (forall a: nat :: Home(a, n) in chains)
    && (forall h | h in chains :: |chains[h]| > 0 && chains[h][0] == h && Chained(m, chains[h]))
    && Apart(chains)
  }

  ghost predicate OnChain(aux: Aux, n: nat, a: nat, b: Ref) {
    n > 0 && Home(a, n) in aux.chains && b in aux.chains[Home(a, n)]
  }

  ghost predicate Resides(m: Buckets, aux: Aux, n: nat, a: nat) {
    && a in aux.live && a in aux.place && a != 0 && Packs(a, aux.live[a])
    && var p := aux.place[a];
       && p.i < SLOTS && OnChain(aux, n, a, p.b) && p.b in m && p.i < |m[p.b].slots|
       && m[p.b].slots[p.i] == MakeEntry(a, aux.live[a])
  }

  /** A filled slot is the place of the address in it. */
  ghost predicate Tenanted(m: Buckets, aux: Aux, b: Ref, i: nat)
    requires b in m && i < |m[b].slots|
  {
    var v := m[b].slots[i];
    v != 0 ==> GetAddress(v) in aux.live && GetAddress(v) in aux.place && aux.place[GetAddress(v)] == Place(b, i)
  }

  ghost predicate PlacesOk(m: Buckets, aux: Aux, n: nat) {
    && aux.live.Keys == aux.place.Keys
    && (forall a | a in aux.live :: Resides(m, aux, n, a))
    && (forall b, i | b in m && 0 <= i < |m[b].slots| :: Tenanted(m, aux, b, i))
  }

  ghost predicate SharedOk(m: Buckets, aux: Aux, n: nat) {
    BucksOk(m) && ChainsOk(m, aux.chains, n) && PlacesOk(m, aux, n)
  }

  // ----- threads

  /** A search for a that is about to look at slot i of b has not yet passed the place of a. */
  ghost predicate Seeks(aux: Aux, n: nat, a: nat, b: Ref, i: nat) {
    && n > 0 && Home(a, n) in aux.chains
    && var c := aux.chains[Home(a, n)];
       exists j | 0 <= j < |c| && c[j] == b :: a in aux.live ==> NotPassed(aux, c, a, j, i)
  }

  ghost predicate NotPassed(aux: Aux, c: seq<Ref>, a: nat, j: nat, i: nat) {
    a in aux.place && exists k | j <= k < |c| :: c[k] == aux.place[a].b && (k == j ==> i <= aux.place[a].i)
  }

  ghost predicate Putting(aux: Aux, n: nat, a: nat, size: nat, b: Ref) {
    a != 0 && Packs(a, size) && a !in aux.live && OnChain(aux, n, a, b)
  }

  ghost predicate PcOk(m: Buckets, aux: Aux, n: nat, pc: Pc) {
    match pc
    case Idle => true
    case PutRead(a, size, b, i, _) => Putting(aux, n, a, size, b) && i < SLOTS
    case PutCas(a, size, b, i, _) => Putting(aux, n, a, size, b) && i < SLOTS
    case PutNext(a, size, b, _) => Putting(aux, n, a, size, b)
    case PutFollow(a, size, b, _) => Putting(aux, n, a, size, b) && b in m && m[b].next != Null
    case PutLock(a, size, b, _) => Putting(aux, n, a, size, b)
    case PutLocked(a, size, b, _) => Putting(aux, n, a, size, b) && b in m && m[b].locked
    case PutJoin(a, size, b, _) => Putting(aux, n, a, size, b) && b in m && m[b].locked && m[b].next != Null
    case PutLink(a, size, b, _) => Putting(aux, n, a, size, b) && b in m && m[b].locked && m[b].next == Null
    case PutUnlock(a, size, h, b, _) => Putting(aux, n, a, size, b) && h in m && m[h].locked
    case PutCount(a, size) => a in aux.live && aux.live[a] == size
    case RemoveRead(a, b, i) => a != 0 && i < SLOTS && Seeks(aux, n, a, b, i)
    case RemoveCas(a, b, i, old') =>
      && a in aux.live && a in aux.place && aux.place[a] == Place(b, i) && old' == MakeEntry(a, aux.live[a])
    case RemoveNext(a, b) => a != 0 && Seeks(aux, n, a, b, SLOTS)
    case RemoveCount(a, _) => a !in aux.live
  }

  /** The bucket whose lock a thread holds. */
  function LockOf(pc: Pc): (b: Ref) {
    match pc
    case PutLocked(_, _, b, _) => b
    case PutJoin(_, _, b, _) => b
    case PutLink(_, _, b, _) => b
    case PutUnlock(_, _, h, _, _) => h
    case _ => Null
  }

  /** The bucket whose lock or link a step changes. */
  function Writes(pc: Pc): (b: Ref) {
    if pc.PutLock? then pc.b else if pc.PutLink? then pc.b else if pc.PutUnlock? then pc.held else Null
  }

  ghost predicate ThreadsOk(s: State, aux: Aux, n: nat) {
    && (forall t | t in s.threads :: PcOk(s.bucks, aux, n, s.threads[t]))
    && (forall t, u | t in s.threads && u in s.threads && t != u && s.threads[t] != Idle && s.threads[u] != Idle ::
          s.threads[t].a != s.threads[u].a)
    && (forall t, u | t in s.threads && u in s.threads && t != u && LockOf(s.threads[t]) != Null ::
          LockOf(s.threads[t]) != LockOf(s.threads[u]))
  }

  ghost function Storing(threads: map<nat, Pc>): (r: set<nat>) {
    set t | t in threads && threads[t].PutCount?
  }

  ghost function Fetching(threads: map<nat, Pc>): (r: set<nat>) {
    set t | t in threads && threads[t].RemoveCount?
  }

  /** The counter lags behind by the operations that have not counted yet. */
  ghost predicate CountOk(s: State, aux: Aux) {
    s.count == |aux.live| - |Storing(s.threads)| + |Fetching(s.threads)|
  }

  ghost predicate Inv(s: State, aux: Aux, n: nat) {
    SharedOk(s.bucks, aux, n) && ThreadsOk(s, aux, n) && CountOk(s, aux)
  }

  // ----- what other threads see of a step

  ghost predicate Evolves(m: Buckets, aux: Aux, m': Buckets, aux': Aux, a: nat, w: Ref) {
    && (forall h | h in aux.chains :: h in aux'.chains && aux.chains[h] <= aux'.chains[h])
    && (forall x: nat | x != a :: (x in aux.live <==> x in aux'.live) && (x in aux.place <==> x in aux'.place))
    && (forall x | x != a && x in aux.live :: aux'.live[x] == aux.live[x])
    && (forall x | x != a && x in aux.place :: aux'.place[x] == aux.place[x])
    && (forall b | b in m :: b in m' && (m[b].next != Null ==> m'[b].next != Null))
    && (forall b | b in m && b != w :: m'[b].next == m[b].next && m'[b].locked == m[b].locked)
  }

  lemma SeeksStable(m: Buckets, aux: Aux, m': Buckets, aux': Aux, a: nat, w: Ref, n: nat, x: nat, b: Ref, i: nat)
    requires Evolves(m, aux, m', aux', a, w) && x != a && Seeks(aux, n, x, b, i)
    ensures Seeks(aux', n, x, b, i)
  {
    var c, c' := aux.chains[Home(x, n)], aux'.chains[Home(x, n)];
    var j :| 0 <= j < |c| && c[j] == b && (x in aux.live ==> NotPassed(aux, c, x, j, i));
    assert c'[j] == b;
    if x in aux.live {
      var k :| j <= k < |c| && c[k] == aux.place[x].b && (k == j ==> i <= aux.place[x].i);
      assert c'[k] == aux'.place[x].b;
      assert NotPassed(aux', c', x, j, i);
    }
  }

  lemma PuttingStable(m: Buckets, aux: Aux, m': Buckets, aux': Aux, a: nat, w: Ref, n: nat, x: nat, size: nat, b: Ref)
    requires Evolves(m, aux, m', aux', a, w) && x != a && Putting(aux, n, x, size, b)
    ensures Putting(aux', n, x, size, b)
  {
    var c, c' := aux.chains[Home(x, n)], aux'.chains[Home(x, n)];
    var j :| 0 <= j < |c| && c[j] == b;
    assert c'[j] == b;
  }

  /** A thread keeps what it relies on while another thread, working on another address, takes a step. */
  lemma PcStable(m: Buckets, aux: Aux, m': Buckets, aux': Aux, a: nat, w: Ref, n: nat, pc: Pc)
    requires Evolves(m, aux, m', aux', a, w) && PcOk(m, aux, n, pc)
    requires pc != Idle ==> pc.a != a
    requires LockOf(pc) != Null ==> LockOf(pc) != w
    requires Null !in m
    ensures PcOk(m', aux', n, pc)
  {
    hide Seeks, Putting;
    match pc
    case RemoveRead(x, b, i) => SeeksStable(m, aux, m', aux', a, w, n, x, b, i);
    case RemoveNext(x, b) => SeeksStable(m, aux, m', aux', a, w, n, x, b, SLOTS);
    case PutUnlock(x, size, _, b, _) => PuttingStable(m, aux, m', aux', a, w, n, x, size, b);
    case PutCount(x, size) =>
    case RemoveCas(x, b, i, old') =>
    case RemoveCount(x, size) =>
    case Idle =>
    case _ => PuttingStable(m, aux, m', aux', a, w, n, pc.a, pc.size, pc.b);
  }
}
