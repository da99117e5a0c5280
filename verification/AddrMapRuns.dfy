/**
 All runs of the map: any number of threads, any interleaving of their single steps.
 */
module AddrMapRuns {
  import opened AddrEntry
  import opened AddrMapSteps
  import opened AddrMapInv
  import opened AddrMapProof

  lemma LockIsHeld(m: Buckets, aux: Aux, n: nat, pc: Pc)
    requires PcOk(m, aux, n, pc) && LockOf(pc) != Null
    ensures LockOf(pc) in m && m[LockOf(pc)].locked
  {
  }

  /** The threads after thread t, working on a, moved on to pc'. */
  lemma ThreadsKept(s: State, s': State, aux: Aux, aux': Aux, n: nat, t: nat, pc': Pc, a: nat, w: Ref)
    requires SharedOk(s.bucks, aux, n) && ThreadsOk(s, aux, n) && t in s.threads && s'.threads == s.threads[t := pc']
    requires Evolves(s.bucks, aux, s'.bucks, aux', a, w) && PcOk(s'.bucks, aux', n, pc')
    requires pc' != Idle ==> pc'.a == a
    requires forall u | u in s.threads && u != t :: !Uses(s.threads[u], a)
    requires forall u | u in s.threads && u != t && LockOf(s.threads[u]) != Null :: LockOf(s.threads[u]) != w && LockOf(s.threads[u]) != LockOf(pc')
    ensures ThreadsOk(s', aux', n)
  {
    hide Evolves, PcOk, LockOf;
    forall u | u in s'.threads
      ensures PcOk(s'.bucks, aux', n, s'.threads[u])
    {
      if u != t { PcStable(s.bucks, aux, s'.bucks, aux', a, w, n, s.threads[u]); }
    }
  }

  /** No other thread is on the address or has the lock that a step concerns. */
  lemma Exclusive(s: State, aux: Aux, n: nat, t: nat)
    requires ThreadsOk(s, aux, n) && t in s.threads && s.threads[t] != Idle
    requires s.threads[t].PutLock? ==> s.threads[t].b in s.bucks && !s.bucks[s.threads[t].b].locked
    ensures var pc := s.threads[t];
            && (forall u | u in s.threads && u != t :: !Uses(s.threads[u], pc.a))
            && (forall u | u in s.threads && u != t && LockOf(s.threads[u]) != Null ::
                  LockOf(s.threads[u]) != Writes(pc) && LockOf(s.threads[u]) != LockOf(pc))
  {
    hide PcOk;
    var pc := s.threads[t];
    forall u | u in s.threads && u != t && LockOf(s.threads[u]) != Null
      ensures LockOf(s.threads[u]) != Writes(pc) && LockOf(s.threads[u]) != LockOf(pc)
    {
      if pc.PutLock? { LockIsHeld(s.bucks, aux, n, s.threads[u]); }
    }
  }

  lemma Unchanged(m: Buckets, aux: Aux, a: nat, w: Ref)
    ensures Evolves(m, aux, m, aux, a, w)
  {
  }

  // ----- counting

  lemma AddKey(live: map<nat, nat>, a: nat, size: nat)
    requires a !in live
    ensures |live[a := size]| == |live| + 1 && live[a := size] - {a} == live
  {
    assert live[a := size].Keys == live.Keys + {a};
    assert |live.Keys + {a}| == |live.Keys| + 1;
    SizeOfKeys(live);
    SizeOfKeys(live[a := size]);
  }

  lemma DropKey(live: map<nat, nat>, a: nat)
    requires a in live
    ensures |live - {a}| == |live| - 1
  {
    assert live == (live - {a})[a := live[a]];
    AddKey(live - {a}, a, live[a]);
  }

  lemma SizeOfKeys(live: map<nat, nat>)
    ensures |live| == |live.Keys|
  {
  }

  lemma StoringChanges(threads: map<nat, Pc>, t: nat, pc': Pc)
    requires t in threads
    ensures |Storing(threads[t := pc'])| == |Storing(threads)| + (if pc'.PutCount? then 1 else 0) - (if threads[t].PutCount? then 1 else 0)
  {
    var a, b := Storing(threads), Storing(threads[t := pc']);
    assert (t in a <==> threads[t].PutCount?) && (t in b <==> pc'.PutCount?);
    assert b - {t} == a - {t};
    hide Storing;
    Singled(a, t);
    Singled(b, t);
  }

  lemma FetchingChanges(threads: map<nat, Pc>, t: nat, pc': Pc)
    requires t in threads
    ensures |Fetching(threads[t := pc'])| == |Fetching(threads)| + (if pc'.RemoveCount? then 1 else 0) - (if threads[t].RemoveCount? then 1 else 0)
  {
    var a, b := Fetching(threads), Fetching(threads[t := pc']);
    assert (t in a <==> threads[t].RemoveCount?) && (t in b <==> pc'.RemoveCount?);
    assert b - {t} == a - {t};
    hide Fetching;
    Singled(a, t);
    Singled(b, t);
  }

  lemma Singled(s: set<nat>, t: nat)
    ensures |s| == |s - {t}| + if t in s then 1 else 0
  {
    if t in s { assert s == (s - {t}) + {t}; } else { assert s - {t} == s; }
  }

  lemma CountKept(s: State, s': State, aux: Aux, aux': Aux, t: nat, pc': Pc)
    requires CountOk(s, aux) && t in s.threads && s'.threads == s.threads[t := pc']
    requires s'.count == s.count + CountChange(s.threads[t])
    requires |aux'.live| == |aux.live| + (if pc'.PutCount? then 1 else 0) - (if pc'.RemoveCount? then 1 else 0)
    ensures CountOk(s', aux')
  {
    hide Storing, Fetching;
    StoringChanges(s.threads, t, pc');
    FetchingChanges(s.threads, t, pc');
  }

  // ----- one step

  lemma AdvanceStep(m: Buckets, aux: Aux, n: nat, pc: Pc, newBuck: Ref) returns (aux': Aux)
    requires SharedOk(m, aux, n) && PcOk(m, aux, n, pc) && pc != Idle && Touchable(m, pc)
    requires pc.PutLink? ==> newBuck.Overflow? && newBuck !in m
    ensures var m', pc' := NextBucks(m, pc, newBuck), NextPc(m, pc, newBuck);
            && SharedOk(m', aux', n) && Evolves(m, aux, m', aux', pc.a, Writes(pc)) && PcOk(m', aux', n, pc')
            && (pc' != Idle ==> pc'.a == pc.a)
            && (LockOf(pc') == Null || LockOf(pc') == LockOf(pc) || LockOf(pc') == Writes(pc))
            && Legal(aux.live, EventOf(m, pc)) && aux'.live == After(aux.live, EventOf(m, pc))
            && |aux'.live| == |aux.live| + (if pc'.PutCount? then 1 else 0) - (if pc'.RemoveCount? then 1 else 0)
  {
    hide SharedOk, Evolves, PcOk, GetAddress, GetSize, MakeEntry;
    NextAddress(m, pc, newBuck);
    if Quiet(m, pc) {
      aux' := aux;
      Unchanged(m, aux, pc.a, Writes(pc));
      QuietStep(m, aux, n, pc, newBuck);
    } else if pc.PutCas? {
      aux' := Stores(aux, pc.a, pc.size, pc.b, pc.i);
      StoreStep(m, aux, n, pc, newBuck);
      NotYet(m, aux, n, pc);
      AddKey(aux.live, pc.a, pc.size);
    } else if pc.RemoveCas? {
      NotYet(m, aux, n, pc);
      aux' := Fetches(aux, pc.a);
      FetchStep(m, aux, n, pc, newBuck);
      DropKey(aux.live, pc.a);
    } else if pc.PutLink? {
      NotYet(m, aux, n, pc);
      aux' := Links(aux, Home(pc.a, n), newBuck);
      LinkStep(m, aux, n, pc, newBuck);
    } else {
      aux' := aux;
      LockStep(m, aux, n, pc, newBuck);
    }
  }

  lemma NotYet(m: Buckets, aux: Aux, n: nat, pc: Pc)
    requires PcOk(m, aux, n, pc)
    ensures pc.PutCas? ==> pc.a !in aux.live
    ensures pc.RemoveCas? ==> pc.a in aux.live
    ensures pc.PutLink? ==> n > 0 && Home(pc.a, n) in aux.chains
  {
  }

  lemma NextAddress(m: Buckets, pc: Pc, newBuck: Ref)
    requires Touchable(m, pc) && pc != Idle
    ensures var pc' := NextPc(m, pc, newBuck);
            && (pc' != Idle ==> pc'.a == pc.a)
            && (LockOf(pc') == Null || LockOf(pc') == LockOf(pc) || LockOf(pc') == Writes(pc))
            && (pc'.PutCount? <==> pc.PutCas? && !Quiet(m, pc))
            && (pc'.RemoveCount? <==> pc.RemoveCas?)
  {
    hide GetAddress, GetSize;
  }

  lemma StartPc(m: Buckets, aux: Aux, n: nat, a: nat, size: nat)
    requires SharedOk(m, aux, n) && a != 0 && Packs(a, size)
    ensures a !in aux.live ==> PcOk(m, aux, n, PutRead(a, size, Home(a, n), 0, 0))
    ensures PcOk(m, aux, n, RemoveRead(a, Home(a, n), 0))
  {
    hide PlacesOk, Apart;
    var h := Home(a, n);
    assert h in aux.chains && aux.chains[h][0] == h;
    if a in aux.live { StartSeeks(m, aux, n, a); }
  }

  lemma StartStep(s: State, aux: Aux, n: nat, t: nat, act: Action)
    requires Inv(s, aux, n) && Enabled(s, t, act, aux.live) && !act.Advance?
    ensures Possible(s, t, act) && Inv(Apply(s, t, act, n), aux, n)
  {
    hide SharedOk, ThreadsOk, PcOk, Evolves, CountOk, Home;
    SomeBuckets(s, aux, n);
    var s' := Apply(s, t, act, n);
    var pc' := s'.threads[t];
    StartPc(s.bucks, aux, n, act.a, if act.StartPut? then act.size else 0);
    Unchanged(s.bucks, aux, act.a, Null);
    ThreadsKept(s, s', aux, aux, n, t, pc', act.a, Null);
    CountKept(s, s', aux, aux, t, pc');
  }

  /** A search that starts at the first bucket has passed nothing. */
  lemma StartSeeks(m: Buckets, aux: Aux, n: nat, a: nat)
    requires SharedOk(m, aux, n) && a in aux.live
    ensures Seeks(aux, n, a, Home(a, n), 0)
  {
    hide Apart, Tenanted, MakeEntry;
    assert Resides(m, aux, n, a);
    var c := aux.chains[Home(a, n)];
    var k :| 0 <= k < |c| && c[k] == aux.place[a].b;
    assert NotPassed(aux, c, a, 0, 0);
  }

  /**
   Any step of any thread keeps the invariant, touches only memory that exists, and shows an
   event that is right for the map at that moment.
   */
  lemma StepRefines(s: State, aux: Aux, n: nat, t: nat, act: Action) returns (aux': Aux)
    requires Inv(s, aux, n) && Enabled(s, t, act, aux.live)
    ensures n > 0 && Possible(s, t, act) && Inv(Apply(s, t, act, n), aux', n)
    ensures Legal(aux.live, Shown(s, t, act)) && aux'.live == After(aux.live, Shown(s, t, act))
  {
    hide SharedOk, Evolves, PcOk, CountOk;
    SomeBuckets(s, aux, n);
    if act.Advance? {
      var pc := s.threads[t];
      assert PcOk(s.bucks, aux, n, pc);
      Touches(s.bucks, aux, n, pc);
      Exclusive(s, aux, n, t);
      aux' := AdvanceStep(s.bucks, aux, n, pc, act.newBuck);
      var s' := Apply(s, t, act, n);
      hide LockOf, Writes, NextPc, NextBucks, EventOf, Legal, AddrMapSteps.After, ThreadsOk;
      ThreadsKept(s, s', aux, aux', n, t, s'.threads[t], pc.a, Writes(pc));
      CountKept(s, s', aux, aux', t, s'.threads[t]);
    } else {
      StartStep(s, aux, n, t, act);
      aux' := aux;
    }
  }

  lemma SomeBuckets(s: State, aux: Aux, n: nat)
    requires Inv(s, aux, n)
    ensures n > 0
  {
  }

  // ----- runs

  datatype Move = Move(t: nat, act: Action)

  /** states and the maps the shown events add up to, along the moves. */
  ghost predicate Run(states: seq<State>, lives: seq<map<nat, nat>>, moves: seq<Move>, n: nat) {
    && |states| == |lives| == |moves| + 1 && Initial(states[0], n) && lives[0] == map[]
    && forall i | 0 <= i < |moves| :: Moves(states[i], lives[i], moves[i], n, states[i + 1], lives[i + 1])
  }

  ghost predicate Moves(s: State, live: map<nat, nat>, move: Move, n: nat, s': State, live': map<nat, nat>) {
    && Enabled(s, move.t, move.act, live) && n > 0 && Possible(s, move.t, move.act)
    && s' == Apply(s, move.t, move.act, n) && live' == After(live, Shown(s, move.t, move.act))
  }

  lemma InitialInv(s: State, n: nat) returns (aux: Aux)
    requires Initial(s, n)
    ensures Inv(s, aux, n) && aux.live == map[]
  {
    aux := Aux(map[], map[], map b | b in s.bucks :: [b]);
    InitialShared(s, n, aux);
    hide SharedOk, PcOk;
    assert forall t | t in s.threads :: s.threads[t] in s.threads.Values;
    assert forall t | t in s.threads :: PcOk(s.bucks, aux, n, Idle) by { IdleOk(s.bucks, aux, n); }
    assert Storing(s.threads) == {} && Fetching(s.threads) == {};
  }

  lemma IdleOk(m: Buckets, aux: Aux, n: nat)
    ensures PcOk(m, aux, n, Idle)
  {
  }

  lemma InitialShared(s: State, n: nat, aux: Aux)
    requires Initial(s, n) && aux == Aux(map[], map[], map b | b in s.bucks :: [b])
    ensures SharedOk(s.bucks, aux, n)
  {
    hide GetAddress, MakeEntry;
    assert forall a: nat :: Home(a, n) in s.bucks;
  }

  /** Every state of a run satisfies the invariant, with the map the events so far add up to. */
  lemma {:induction false} Reachable(states: seq<State>, lives: seq<map<nat, nat>>, moves: seq<Move>, n: nat, i: nat) returns (aux: Aux)
    requires Run(states, lives, moves, n) && i <= |moves|
    ensures Inv(states[i], aux, n) && aux.live == lives[i]
  {
    hide Inv, Initial, Enabled;
    if i == 0 {
      aux := InitialInv(states[0], n);
    } else {
      var aux0 := Reachable(states, lives, moves, n, i - 1);
      assert Moves(states[i - 1], lives[i - 1], moves[i - 1], n, states[i - 1 + 1], lives[i - 1 + 1]);
      aux := StepRefines(states[i - 1], aux0, n, moves[i - 1].t, moves[i - 1].act);
    }
  }

  /**
   The map is linearizable: along every run, each event is right for the map made by the events
   before it. A Remove returns the size last put, and misses only what is not in the map.
   */
  lemma Linearizable(states: seq<State>, lives: seq<map<nat, nat>>, moves: seq<Move>, n: nat, i: nat)
    requires Run(states, lives, moves, n) && i < |moves|
    ensures Possible(states[i], moves[i].t, moves[i].act)
    ensures Legal(lives[i], Shown(states[i], moves[i].t, moves[i].act))
  {
    hide Inv, Initial, Enabled;
    var aux := Reachable(states, lives, moves, n, i);
    assert Moves(states[i], lives[i], moves[i], n, states[i + 1], lives[i + 1]);
    var aux' := StepRefines(states[i], aux, n, moves[i].t, moves[i].act);
  }

  /** The slot b, i holds address a with its size. */
  predicate SlotHolds(s: State, b: Ref, i: nat, a: nat, size: nat) {
    b in s.bucks && i < |s.bucks[b].slots| && s.bucks[b].slots[i] == MakeEntry(a, size)
  }

  /** Along every run, each address of the map sits in exactly one slot, with its size. */
  lemma OneSlotEach(states: seq<State>, lives: seq<map<nat, nat>>, moves: seq<Move>, n: nat, i: nat, a: nat) returns (p: Place)
    requires Run(states, lives, moves, n) && i <= |moves| && a in lives[i]
    ensures SlotHolds(states[i], p.b, p.i, a, lives[i][a])
    ensures forall b, j | b in states[i].bucks && 0 <= j < |states[i].bucks[b].slots| && GetAddress(states[i].bucks[b].slots[j]) == a ::
              Place(b, j) == p
  {
    var aux := Reachable(states, lives, moves, n, i);
    hide Run, ChainsOk, ThreadsOk, CountOk, GetAddress, MakeEntry;
    var m := states[i].bucks;
    assert Resides(m, aux, n, a);
    p := aux.place[a];
    forall b, j | b in m && 0 <= j < |m[b].slots| && GetAddress(m[b].slots[j]) == a
      ensures Place(b, j) == p
    {
      EmptyAddress();
      assert Tenanted(m, aux, b, j);
    }
  }

  /** Along every run, a filled slot holds an address of the map. */
  lemma NothingElse(states: seq<State>, lives: seq<map<nat, nat>>, moves: seq<Move>, n: nat, i: nat, b: Ref, j: nat)
    requires Run(states, lives, moves, n) && i <= |moves|
    requires b in states[i].bucks && j < |states[i].bucks[b].slots| && states[i].bucks[b].slots[j] != 0
    ensures GetAddress(states[i].bucks[b].slots[j]) in lives[i]
  {
    var aux := Reachable(states, lives, moves, n, i);
    hide Run, ChainsOk, ThreadsOk, CountOk, GetAddress;
    assert Tenanted(states[i].bucks, aux, b, j);
  }

  /** When no operation is under way, the counter is the number of addresses in the map. */
  lemma CountWhenQuiescent(states: seq<State>, lives: seq<map<nat, nat>>, moves: seq<Move>, n: nat, i: nat)
    requires Run(states, lives, moves, n) && i <= |moves|
    requires forall t | t in states[i].threads :: states[i].threads[t] == Idle
    ensures states[i].count == |lives[i]|
  {
    var aux := Reachable(states, lives, moves, n, i);
    hide Run, SharedOk, ThreadsOk;
    assert Storing(states[i].threads) == {} && Fetching(states[i].threads) == {};
  }
}
