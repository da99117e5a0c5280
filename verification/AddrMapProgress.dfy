/**
 How operations on the map end: along every run each operation shows one event, a Put gives up only
 after 8192 rounds, and a thread that runs alone stores, fetches or misses what it came for.
 */
module AddrMapProgress {
  import opened AddrEntry
  import opened AddrMapSteps
  import opened AddrMapInv
  import opened AddrMapProof
  import opened AddrMapRuns

  // ----- rounds of a Put

  predicate InPut(pc: Pc) {
    pc.PutRead? || pc.PutCas? || pc.PutNext? || pc.PutFollow? || pc.PutLock? || pc.PutLocked? || pc.PutJoin? || pc.PutLink? || pc.PutUnlock?
  }

  predicate InRemove(pc: Pc) {
    pc.RemoveRead? || pc.RemoveCas? || pc.RemoveNext?
  }

  /** Move k is thread t releasing a lock. */
  ghost predicate Unlocks(states: seq<State>, moves: seq<Move>, t: nat, k: nat) {
    && k < |moves| && k < |states| && moves[k].t == t && moves[k].act.Advance?
    && t in states[k].threads && states[k].threads[t].PutUnlock?
  }

  /** Locks released by thread t in the moves from j up to i. */
  ghost function UnlockCount(states: seq<State>, moves: seq<Move>, t: nat, j: nat, i: nat): (n: nat) {
    if i <= j then 0 else UnlockCount(states, moves, t, j, i - 1) + if Unlocks(states, moves, t, i - 1) then 1 else 0
  }

  /** Move k is thread t showing an event. */
  ghost predicate Shows(states: seq<State>, moves: seq<Move>, t: nat, k: nat) {
    && k < |moves| && k < |states| && moves[k].t == t && Possible(states[k], t, moves[k].act)
    && Shown(states[k], t, moves[k].act) != Silent
  }

  ghost function EventCount(states: seq<State>, moves: seq<Move>, t: nat, j: nat, i: nat): (n: nat) {
    if i <= j then 0 else EventCount(states, moves, t, j, i - 1) + if Shows(states, moves, t, i - 1) then 1 else 0
  }

  /** Move j started the operation that thread t is at in state i, and it has been at it since. */
  ghost predicate Since(states: seq<State>, moves: seq<Move>, t: nat, j: nat, i: nat) {
    && j < i <= |moves| && i < |states| && t in states[i].threads && states[i].threads[t] != Idle
    && var pc := states[i].threads[t];
       && moves[j].t == t
       && (InPut(pc) ==> moves[j].act == StartPut(pc.a, pc.size)) && (InRemove(pc) ==> moves[j].act == StartRemove(pc.a))
       && (pc.PutCount? ==> moves[j].act == StartPut(pc.a, pc.size)) && (pc.RemoveCount? ==> moves[j].act == StartRemove(pc.a))
       && (forall k | j < k <= i :: t in states[k].threads && Uses(states[k].threads[t], pc.a))
       && (InPut(pc) ==> UnlockCount(states, moves, t, j, i) == pc.tries < 8192)
       && EventCount(states, moves, t, j, i) == if pc.PutCount? || pc.RemoveCount? then 1 else 0
  }

  /** Where a step takes a thread, and what it shows. */
  lemma StepShape(m: Buckets, pc: Pc, newBuck: Ref)
    requires Touchable(m, pc) && pc != Idle && (InPut(pc) ==> pc.tries < 8192)
    ensures var pc', e := NextPc(m, pc, newBuck), EventOf(m, pc);
            && (InPut(pc) && pc' != Idle ==> (InPut(pc') || pc'.PutCount?) && pc'.a == pc.a && pc'.size == pc.size)
            && (InPut(pc) && InPut(pc') ==> e == Silent && pc'.tries == (if pc.PutUnlock? then pc.tries + 1 else pc.tries) < 8192)
            && (InPut(pc) && pc'.PutCount? ==> e == Stored(pc.a, pc.size))
            && (InPut(pc) && pc' == Idle ==> pc.PutUnlock? && pc.tries == 8191 && e == Refused(pc.a))
            && (e.Refused? ==> pc.PutUnlock? && pc.tries == 8191)
            && (InRemove(pc) && pc' != Idle ==> (InRemove(pc') || pc'.RemoveCount?) && pc'.a == pc.a)
            && (InRemove(pc) && InRemove(pc') ==> e == Silent)
            && (InRemove(pc) && pc'.RemoveCount? ==> e == Fetched(pc.a, pc'.size))
            && (InRemove(pc) && pc' == Idle ==> e == Missed(pc.a))
            && (pc.PutCount? || pc.RemoveCount? ==> pc' == Idle && e == Silent)
  {
    hide GetAddress, GetSize;
  }

  /** Other threads' moves leave the accounts of thread t. */
  lemma OtherMoves(states: seq<State>, moves: seq<Move>, t: nat, j: nat, i: nat)
    requires j < i && i < |moves| && i < |states| && moves[i].t != t
    ensures UnlockCount(states, moves, t, j, i + 1) == UnlockCount(states, moves, t, j, i)
    ensures EventCount(states, moves, t, j, i + 1) == EventCount(states, moves, t, j, i)
  {
  }

  lemma OwnMove(states: seq<State>, moves: seq<Move>, t: nat, j: nat, i: nat)
    requires j <= i && i < |moves| && i < |states| && moves[i].t == t && Possible(states[i], t, moves[i].act)
    ensures UnlockCount(states, moves, t, j, i + 1) == UnlockCount(states, moves, t, j, i) + if Unlocks(states, moves, t, i) then 1 else 0
    ensures EventCount(states, moves, t, j, i + 1) == EventCount(states, moves, t, j, i) + if Shown(states[i], t, moves[i].act) == Silent then 0 else 1
  {
  }

  lemma Started(states: seq<State>, lives: seq<map<nat, nat>>, moves: seq<Move>, n: nat, i: nat, t: nat)
    requires |states| == |moves| + 1 && i < |moves| && i < |lives| && i + 1 < |lives| && moves[i].t == t && !moves[i].act.Advance?
    requires Moves(states[i], lives[i], moves[i], n, states[i + 1], lives[i + 1])
    ensures Since(states, moves, t, i, i + 1)
  {
    OwnMove(states, moves, t, i, i);
  }

  lemma WentOn(states: seq<State>, lives: seq<map<nat, nat>>, moves: seq<Move>, n: nat, i: nat, t: nat, j: nat)
    requires |states| == |moves| + 1 && i < |moves| && i < |lives| && i + 1 < |lives| && moves[i].t == t && moves[i].act.Advance?
    requires Moves(states[i], lives[i], moves[i], n, states[i + 1], lives[i + 1]) && Since(states, moves, t, j, i)
    requires states[i + 1].threads[t] != Idle
    ensures Since(states, moves, t, j, i + 1)
  {
    hide Touchable, NextPc, NextBucks, EventOf, UnlockCount, EventCount;
    var pc := states[i].threads[t];
    StepShape(states[i].bucks, pc, moves[i].act.newBuck);
    OwnMove(states, moves, t, j, i);
  }

  lemma StoodStill(states: seq<State>, lives: seq<map<nat, nat>>, moves: seq<Move>, n: nat, i: nat, t: nat, j: nat)
    requires |states| == |moves| + 1 && i < |moves| && i < |lives| && i + 1 < |lives| && moves[i].t != t
    requires Moves(states[i], lives[i], moves[i], n, states[i + 1], lives[i + 1]) && Since(states, moves, t, j, i)
    ensures Since(states, moves, t, j, i + 1)
  {
    hide Touchable, NextPc, NextBucks, EventOf, UnlockCount, EventCount;
    OtherMoves(states, moves, t, j, i);
    assert states[i + 1].threads[t] == states[i].threads[t];
  }

  /** Every operation under way was started by a move of its thread, and the accounts since then are right. */
  lemma {:induction false} UnderWay(states: seq<State>, lives: seq<map<nat, nat>>, moves: seq<Move>, n: nat, i: nat, t: nat) returns (j: nat)
    requires Run(states, lives, moves, n) && i <= |moves| && t in states[i].threads && states[i].threads[t] != Idle
    ensures Since(states, moves, t, j, i)
  {
    hide Since, Enabled, Touchable, NextPc, NextBucks, EventOf;
    if i == 0 {
      IdleAtFirst(states[0], n, t);
    } else {
      assert Moves(states[i - 1], lives[i - 1], moves[i - 1], n, states[i - 1 + 1], lives[i - 1 + 1]);
      if moves[i - 1].t != t {
        j := UnderWay(states, lives, moves, n, i - 1, t);
        StoodStill(states, lives, moves, n, i - 1, t, j);
      } else if moves[i - 1].act.Advance? {
        NotIdle(states[i - 1], t, moves[i - 1].act, lives[i - 1]);
        j := UnderWay(states, lives, moves, n, i - 1, t);
        WentOn(states, lives, moves, n, i - 1, t, j);
      } else {
        j := i - 1;
        Started(states, lives, moves, n, i - 1, t);
      }
    }
  }

  lemma IdleAtFirst(s: State, n: nat, t: nat)
    requires Initial(s, n) && t in s.threads
    ensures s.threads[t] == Idle
  {
    assert s.threads[t] in s.threads.Values;
  }

  lemma NotIdle(s: State, t: nat, act: Action, live: map<nat, nat>)
    requires Enabled(s, t, act, live) && act.Advance?
    ensures s.threads[t] != Idle
  {
  }

  /** A Put is refused only with the 8192nd release of a lock since it was started. */
  lemma RefusedAfter8192(states: seq<State>, lives: seq<map<nat, nat>>, moves: seq<Move>, n: nat, i: nat) returns (j: nat)
    requires Run(states, lives, moves, n) && i < |moves| && Possible(states[i], moves[i].t, moves[i].act)
    requires Shown(states[i], moves[i].t, moves[i].act).Refused?
    ensures j < i && moves[j].t == moves[i].t && moves[j].act.StartPut?
    ensures Shown(states[i], moves[i].t, moves[i].act) == Refused(moves[j].act.a)
    ensures forall k | j < k <= i :: moves[i].t in states[k].threads && Uses(states[k].threads[moves[i].t], moves[j].act.a)
    ensures UnlockCount(states, moves, moves[i].t, j, i + 1) == 8192
  {
    hide Moves, NextPc, NextBucks, UnlockCount, EventCount;
    var t := moves[i].t;
    var pc := states[i].threads[t];
    j := UnderWay(states, lives, moves, n, i, t);
    StepShape(states[i].bucks, pc, Null);
    OwnMove(states, moves, t, j, i);
  }

  /** An operation that ends has shown exactly one event, and that before or with its last step. */
  lemma OneEventEach(states: seq<State>, lives: seq<map<nat, nat>>, moves: seq<Move>, n: nat, i: nat) returns (j: nat)
    requires Run(states, lives, moves, n) && i < |moves| && moves[i].act.Advance?
    requires moves[i].t in states[i + 1].threads && states[i + 1].threads[moves[i].t] == Idle
    ensures j < i && moves[j].t == moves[i].t && !moves[j].act.Advance? && EventCount(states, moves, moves[i].t, j, i + 1) == 1
  {
    hide Enabled, NextPc, NextBucks, UnlockCount, EventCount, EventOf, Touchable;
    var t := moves[i].t;
    assert Moves(states[i], lives[i], moves[i], n, states[i + 1], lives[i + 1]);
    NotIdle(states[i], t, moves[i].act, lives[i]);
    var pc := states[i].threads[t];
    j := UnderWay(states, lives, moves, n, i, t);
    StepShape(states[i].bucks, pc, moves[i].act.newBuck);
    OwnMove(states, moves, t, j, i);
  }

  // ----- a thread that runs alone

  /**
   Thread t, running alone, shows e within k steps whichever buckets it is given, shows nothing
   before, and can take each of these steps.
   */
  ghost predicate Ends(s: State, live: map<nat, nat>, n: nat, t: nat, e: Event, k: nat)
    requires n > 0
    decreases k
  {
    && k > 0 && (exists newBuck :: Enabled(s, t, Advance(newBuck), live))
    && forall newBuck | Enabled(s, t, Advance(newBuck), live) ::
         && Possible(s, t, Advance(newBuck))
         && (Shown(s, t, Advance(newBuck)) == e
             || (Shown(s, t, Advance(newBuck)) == Silent && Ends(Apply(s, t, Advance(newBuck), n), live, n, t, e, k - 1)))
  }

  /** The same for the thread's own place and the buckets. */
  ghost predicate EndsAt(m: Buckets, pc: Pc, e: Event, k: nat)
    decreases k
  {
    && k > 0 && pc != Idle && Touchable(m, pc) && (pc.PutLock? ==> !m[pc.b].locked)
    && (EventOf(m, pc) == e
        || (EventOf(m, pc) == Silent
            && forall newBuck: Ref | pc.PutLink? ==> newBuck.Overflow? && newBuck !in m ::
                 EndsAt(NextBucks(m, pc, newBuck), NextPc(m, pc, newBuck), e, k - 1)))
  }

  lemma {:induction false} FreshFrom(s: set<Ref>) returns (k: nat)
    ensures forall j: nat | k <= j :: Overflow(j) !in s
    decreases |s|
  {
    if s == {} {
      k := 0;
    } else {
      var b :| b in s;
      k := FreshFrom(s - {b});
      if b.Overflow? && b.k >= k { k := b.k + 1; }
    }
  }

  lemma CanGoOn(s: State, live: map<nat, nat>, t: nat)
    requires t in s.threads && s.threads[t] != Idle && Touchable(s.bucks, s.threads[t])
    requires s.threads[t].PutLock? ==> !s.bucks[s.threads[t].b].locked
    ensures exists newBuck :: Enabled(s, t, Advance(newBuck), live)
  {
    var k := FreshFrom(s.bucks.Keys);
    assert Overflow(k) !in s.bucks;
    assert Enabled(s, t, Advance(Overflow(k)), live);
  }

  lemma {:induction false} Lifted(s: State, live: map<nat, nat>, n: nat, t: nat, e: Event, k: nat)
    requires n > 0 && t in s.threads && EndsAt(s.bucks, s.threads[t], e, k)
    ensures Ends(s, live, n, t, e, k)
    decreases k
  {
    hide Touchable, NextPc, NextBucks, EventOf;
    var pc := s.threads[t];
    CanGoOn(s, live, t);
    forall newBuck | Enabled(s, t, Advance(newBuck), live) && Shown(s, t, Advance(newBuck)) != e
      ensures Ends(Apply(s, t, Advance(newBuck), n), live, n, t, e, k - 1)
    {
      var s' := Apply(s, t, Advance(newBuck), n);
      assert EndsAt(NextBucks(s.bucks, pc, newBuck), NextPc(s.bucks, pc, newBuck), e, k - 1);
      Lifted(s', live, n, t, e, k - 1);
    }
  }

  /** One silent step that is not a link leads on. */
  lemma StepOn(m: Buckets, pc: Pc, e: Event, k: nat)
    requires pc != Idle && !pc.PutLink? && Touchable(m, pc) && (pc.PutLock? ==> !m[pc.b].locked) && EventOf(m, pc) == Silent
    requires EndsAt(NextBucks(m, pc, Null), NextPc(m, pc, Null), e, k)
    ensures EndsAt(m, pc, e, k + 1)
  {
    forall newBuck: Ref | pc.PutLink? ==> newBuck.Overflow? && newBuck !in m
      ensures EndsAt(NextBucks(m, pc, newBuck), NextPc(m, pc, newBuck), e, k)
    {
      assert NextBucks(m, pc, newBuck) == NextBucks(m, pc, Null) && NextPc(m, pc, newBuck) == NextPc(m, pc, Null);
    }
  }

  /** An empty slot is taken at once. */
  lemma EmptySlot(m: Buckets, a: nat, size: nat, b: Ref, i: nat, tries: nat)
    requires b in m && i < |m[b].slots| && m[b].slots[i] == 0
    ensures EndsAt(m, PutRead(a, size, b, i, tries), Stored(a, size), 2)
  {
    assert EndsAt(m, PutCas(a, size, b, i, tries), Stored(a, size), 1);
    StepOn(m, PutRead(a, size, b, i, tries), Stored(a, size), 1);
  }

  /** At the end of the chain a new bucket is linked, and its first slot taken. */
  lemma EndOfChain(m: Buckets, a: nat, size: nat, b: Ref)
    requires b in m && m[b].next == Null && !m[b].locked
    ensures EndsAt(m, PutNext(a, size, b, 0), Stored(a, size), 7)
  {
    hide EndsAt;
    var e, m1 := Stored(a, size), m[b := m[b].(locked := true)];
    forall newBuck: Ref | newBuck.Overflow? && newBuck !in m1
      ensures EndsAt(AddBucket(m1, b, newBuck), PutUnlock(a, size, b, newBuck, 0), e, 3)
    {
      var m2 := AddBucket(m1, b, newBuck);
      var m3 := m2[b := m2[b].(locked := false)];
      EmptySlot(m3, a, size, newBuck, 0, 1);
      StepOn(m2, PutUnlock(a, size, b, newBuck, 0), e, 2);
    }
    LinkOn(m1, a, size, b, e, 3);
    StepOn(m1, PutLocked(a, size, b, 0), e, 4);
    StepOn(m, PutLock(a, size, b, 0), e, 5);
    StepOn(m, PutNext(a, size, b, 0), e, 6);
  }

  lemma LinkOn(m: Buckets, a: nat, size: nat, b: Ref, e: Event, k: nat)
    requires b in m
    requires forall newBuck: Ref | newBuck.Overflow? && newBuck !in m :: EndsAt(AddBucket(m, b, newBuck), PutUnlock(a, size, b, newBuck, 0), e, k)
    ensures EndsAt(m, PutLink(a, size, b, 0), e, k + 1)
  {
  }

  /** From any slot of any bucket of the chain on, a thread alone finds an empty slot or makes one. */
  lemma {:induction false} PutAlone(m: Buckets, aux: Aux, n: nat, a: nat, size: nat, j: nat, i: nat) returns (k: nat)
    requires SharedOk(m, aux, n) && (forall b | b in m :: !m[b].locked)
    requires n > 0 && Home(a, n) in aux.chains && j < |aux.chains[Home(a, n)]| && i < SLOTS
    ensures EndsAt(m, PutRead(a, size, aux.chains[Home(a, n)][j], i, 0), Stored(a, size), k)
    decreases |aux.chains[Home(a, n)]| - j, SLOTS - i
  {
    hide EndsAt, SharedOk, Home;
    var c, e := aux.chains[Home(a, n)], Stored(a, size);
    var b := c[j];
    ChainSpot(m, aux, n, a, j);
    if m[b].slots[i] == 0 {
      EmptySlot(m, a, size, b, i, 0);
      k := 2;
    } else if i + 1 < SLOTS {
      k := PutAlone(m, aux, n, a, size, j, i + 1);
      StepOn(m, PutRead(a, size, b, i, 0), e, k);
      k := k + 1;
    } else if m[b].next == Null {
      EndOfChain(m, a, size, b);
      StepOn(m, PutRead(a, size, b, i, 0), e, 7);
      k := 8;
    } else {
      k := PutAlone(m, aux, n, a, size, j + 1, 0);
      StepOn(m, PutFollow(a, size, b, 0), e, k);
      StepOn(m, PutNext(a, size, b, 0), e, k + 1);
      StepOn(m, PutRead(a, size, b, i, 0), e, k + 2);
      k := k + 3;
    }
  }

  lemma ChainSpot(m: Buckets, aux: Aux, n: nat, a: nat, j: nat)
    requires SharedOk(m, aux, n) && Home(a, n) in aux.chains && j < |aux.chains[Home(a, n)]|
    ensures var c := aux.chains[Home(a, n)];
            && c[j] in m && |m[c[j]].slots| == SLOTS
            && (if j + 1 < |c| then m[c[j]].next == c[j + 1] && c[j + 1] != Null else m[c[j]].next == Null)
  {
    hide PlacesOk, Apart;
    var c := aux.chains[Home(a, n)];
    ChainedAt(m, c, j);
    if j + 1 < |c| { ChainedAt(m, c, j + 1); }
  }

  /**
   From every reachable state in which no bucket is locked, a Put that runs alone stores its
   address and size, after finitely many steps and without waiting.
   */
  lemma PutSucceedsAlone(states: seq<State>, lives: seq<map<nat, nat>>, moves: seq<Move>, n: nat, i: nat, t: nat, a: nat, size: nat)
      returns (k: nat)
    requires Run(states, lives, moves, n) && i <= |moves| && Enabled(states[i], t, StartPut(a, size), lives[i])
    requires forall b | b in states[i].bucks :: !states[i].bucks[b].locked
    ensures n > 0 && Ends(Apply(states[i], t, StartPut(a, size), n), lives[i], n, t, Stored(a, size), k)
  {
    var s := states[i];
    var aux := Reachable(states, lives, moves, n, i);
    HomeFirst(s.bucks, aux, n, a);
    hide Run, Inv, SharedOk, Home, Ends, EndsAt;
    assert SharedOk(s.bucks, aux, n) by { SharedPart(s, aux, n); }
    k := PutAlone(s.bucks, aux, n, a, size, 0, 0);
    Lifted(Apply(s, t, StartPut(a, size), n), lives[i], n, t, Stored(a, size), k);
  }

  lemma SharedPart(s: State, aux: Aux, n: nat)
    requires Inv(s, aux, n)
    ensures SharedOk(s.bucks, aux, n)
  {
  }

  lemma HomeFirst(m: Buckets, aux: Aux, n: nat, a: nat)
    requires SharedOk(m, aux, n)
    ensures n > 0 && Home(a, n) in aux.chains && |aux.chains[Home(a, n)]| > 0 && aux.chains[Home(a, n)][0] == Home(a, n)
  {
    hide PlacesOk, Apart, Chained;
  }

  /** What a Remove should show. */
  function Expected(live: map<nat, nat>, a: nat): (e: Event) {
    if a in live then Fetched(a, live[a]) else Missed(a)
  }

  /** Alone from any slot of the chain that is not behind the address's own, a Remove finds it or the end. */
  lemma {:induction false} RemoveAlone(m: Buckets, aux: Aux, n: nat, a: nat, j: nat, i: nat) returns (k: nat)
    requires SharedOk(m, aux, n) && a != 0 && n > 0 && Home(a, n) in aux.chains && j < |aux.chains[Home(a, n)]| && i < SLOTS
    requires Seeks(aux, n, a, aux.chains[Home(a, n)][j], i)
    ensures EndsAt(m, RemoveRead(a, aux.chains[Home(a, n)][j], i), Expected(aux.live, a), k)
    decreases |aux.chains[Home(a, n)]| - j, SLOTS - i
  {
    hide EndsAt, SharedOk, Home, Seeks, GetAddress, GetSize, MakeEntry;
    var c, e := aux.chains[Home(a, n)], Expected(aux.live, a);
    var b := c[j];
    ChainSpot(m, aux, n, a, j);
    if GetAddress(m[b].slots[i]) == a {
      FoundHere(m, aux, n, a, b, i);
      StepOn(m, RemoveRead(a, b, i), e, 1);
      k := 2;
    } else if i + 1 < SLOTS {
      SeeksPast(m, aux, n, a, b, i);
      k := RemoveAlone(m, aux, n, a, j, i + 1);
      StepOn(m, RemoveRead(a, b, i), e, k);
      k := k + 1;
    } else {
      SeeksPast(m, aux, n, a, b, i);
      SeeksOn(m, aux, n, a, b);
      if m[b].next == Null {
        LastMissed(m, a, b);
        k := 1;
      } else {
        k := RemoveAlone(m, aux, n, a, j + 1, 0);
        StepOn(m, RemoveNext(a, b), e, k);
        k := k + 1;
      }
      StepOn(m, RemoveRead(a, b, i), e, k);
      k := k + 1;
    }
  }

  lemma LastMissed(m: Buckets, a: nat, b: Ref)
    requires b in m && m[b].next == Null
    ensures EndsAt(m, RemoveNext(a, b), Missed(a), 1)
  {
  }

  lemma FoundHere(m: Buckets, aux: Aux, n: nat, a: nat, b: Ref, i: nat)
    requires SharedOk(m, aux, n) && i < SLOTS && b in m && |m[b].slots| == SLOTS && GetAddress(m[b].slots[i]) == a && a != 0
    ensures EndsAt(m, RemoveCas(a, b, i, m[b].slots[i]), Expected(aux.live, a), 1)
  {
    hide GetAddress, GetSize, MakeEntry, SharedOk;
    FoundPlace(m, aux, n, a, b, i);
    ResidesHere(m, aux, n, a);
    EntryRoundTrip(a, aux.live[a]);
  }

  /** From every reachable state a Remove that runs alone fetches the size last put, or misses an address that is not in the map. */
  lemma RemoveSucceedsAlone(states: seq<State>, lives: seq<map<nat, nat>>, moves: seq<Move>, n: nat, i: nat, t: nat, a: nat) returns (k: nat)
    requires Run(states, lives, moves, n) && i <= |moves| && Enabled(states[i], t, StartRemove(a), lives[i])
    ensures n > 0 && Ends(Apply(states[i], t, StartRemove(a), n), lives[i], n, t, Expected(lives[i], a), k)
  {
    var s := states[i];
    var aux := Reachable(states, lives, moves, n, i);
    HomeFirst(s.bucks, aux, n, a);
    FirstSought(s.bucks, aux, n, a);
    hide Run, Inv, SharedOk, Home, Ends, EndsAt, Seeks;
    assert SharedOk(s.bucks, aux, n) by { SharedPart(s, aux, n); }
    k := RemoveAlone(s.bucks, aux, n, a, 0, 0);
    Lifted(Apply(s, t, StartRemove(a), n), lives[i], n, t, Expected(lives[i], a), k);
  }

  lemma FirstSought(m: Buckets, aux: Aux, n: nat, a: nat)
    requires SharedOk(m, aux, n)
    ensures n > 0 && Seeks(aux, n, a, Home(a, n), 0)
  {
    hide PlacesOk, Apart, Chained;
    assert Home(a, n) in aux.chains && aux.chains[Home(a, n)][0] == Home(a, n);
    if a in aux.live { StartSeeks(m, aux, n, a); }
  }
}
