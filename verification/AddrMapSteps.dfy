/**
 The lock-free map from addresses to sizes as a state machine: each step is one read, one write
 or one compare-and-swap of one thread.
 */
module AddrMapSteps {
  import opened AddrEntry

  const SLOTS: nat := 6
  const SUB_MAPS: nat := 5
  const TRIES: nat := 8192

  /** A bucket: one of the arrays of a sub-map, or an overflow bucket. */
  datatype Ref = Null | Head(sub: nat, index: nat) | Overflow(k: nat)

  datatype Bucket = Bucket(slots: seq<nat>, next: Ref, locked: bool)

  type Buckets = map<Ref, Bucket>

  /** Where a thread is in Put or Remove, with its local variables. */
  datatype Pc =
    | Idle
    | PutRead(a: nat, size: nat, b: Ref, i: nat, tries: nat)
    | PutCas(a: nat, size: nat, b: Ref, i: nat, tries: nat)
    | PutNext(a: nat, size: nat, b: Ref, tries: nat)
    | PutFollow(a: nat, size: nat, b: Ref, tries: nat)
    | PutLock(a: nat, size: nat, b: Ref, tries: nat)
    | PutLocked(a: nat, size: nat, b: Ref, tries: nat)
    | PutJoin(a: nat, size: nat, b: Ref, tries: nat)
    | PutLink(a: nat, size: nat, b: Ref, tries: nat)
    | PutUnlock(a: nat, size: nat, held: Ref, b: Ref, tries: nat)
    | PutCount(a: nat, size: nat)
    | RemoveRead(a: nat, b: Ref, i: nat)
    | RemoveCas(a: nat, b: Ref, i: nat, old': nat)
    | RemoveNext(a: nat, b: Ref)
    | RemoveCount(a: nat, size: nat)

  datatype State = State(bucks: Buckets, count: int, threads: map<nat, Pc>)

  datatype Action =
    | StartPut(a: nat, size: nat)
    | StartRemove(a: nat)
    | Advance(newBuck: Ref)

  /** What a step shows to the outside. */
  datatype Event = Silent | Stored(a: nat, size: nat) | Refused(a: nat) | Fetched(a: nat, size: nat) | Missed(a: nat)

  /** First bucket for an address when each sub-map has n buckets. */
  function Home(a: nat, n: nat): (b: Ref)
    requires n > 0
  {
    Head(a % 5, a % n)
  }

  predicate ZeroBucket(k: Bucket) {
    k == Bucket([0, 0, 0, 0, 0, 0], Null, false)
  }

  ghost predicate Initial(s: State, n: nat) {
    && n > 0 && s.count == 0 && s.threads.Values <= {Idle}
    && (forall b :: b in s.bucks <==> b.Head? && b.sub < SUB_MAPS && b.index < n)
    && (forall b | b in s.bucks :: ZeroBucket(s.bucks[b]))
  }

  /** Thread t is between the start and the end of an operation on a. */
  predicate Uses(pc: Pc, a: nat) {
    pc != Idle && pc.a == a
  }

  /**
   When a step can be taken. Callers start an operation on an address only while no other is
   under way on it, and put only an address that they removed or never put.
   */
  ghost predicate Enabled(s: State, t: nat, act: Action, live: map<nat, nat>) {
    && t in s.threads
    && match act
       case StartPut(a, size) =>
         s.threads[t] == Idle && a != 0 && Packs(a, size) && a !in live && forall u | u in s.threads :: !Uses(s.threads[u], a)
       case StartRemove(a) =>
         s.threads[t] == Idle && a != 0 && Packs(a, 0) && forall u | u in s.threads :: !Uses(s.threads[u], a)
       case Advance(newBuck) =>
         var pc := s.threads[t];
         && pc != Idle
         && (pc.PutLock? ==> pc.b in s.bucks && !s.bucks[pc.b].locked)
         && (pc.PutLink? ==> newBuck.Overflow? && newBuck !in s.bucks)
  }

  function SetSlot(m: Buckets, b: Ref, i: nat, v: nat): (m': Buckets)
    requires b in m && i < |m[b].slots|
  {
    m[b := m[b].(slots := m[b].slots[i := v])]
  }

  /** An empty bucket linked behind b. */
  function AddBucket(m: Buckets, b: Ref, newBuck: Ref): (m': Buckets)
    requires b in m
  {
    m[b := m[b].(next := newBuck)][newBuck := Bucket([0, 0, 0, 0, 0, 0], Null, false)]
  }

  /** Memory a step touches exists. */
  predicate Touchable(m: Buckets, pc: Pc) {
    match pc
    case PutRead(_, _, b, i, _) => b in m && i < |m[b].slots|
    case PutCas(_, _, b, i, _) => b in m && i < |m[b].slots|
    case PutNext(_, _, b, _) => b in m
    case PutFollow(_, _, b, _) => b in m
    case PutLock(_, _, b, _) => b in m
    case PutLocked(_, _, b, _) => b in m
    case PutJoin(_, _, b, _) => b in m
    case PutLink(_, _, b, _) => b in m
    case PutUnlock(_, _, h, _, _) => h in m
    case RemoveRead(_, b, i) => b in m && i < |m[b].slots|
    case RemoveCas(_, b, i, _) => b in m && i < |m[b].slots|
    case RemoveNext(_, b) => b in m
    case _ => true
  }

  /** The next slot of the bucket, or on to the next bucket. */
  function PutSlotBusy(a: nat, size: nat, b: Ref, i: nat, tries: nat): (pc: Pc) {
    if i + 1 < SLOTS then PutRead(a, size, b, i + 1, tries) else PutNext(a, size, b, tries)
  }

  /** Where thread t goes next. */
  function NextPc(m: Buckets, pc: Pc, newBuck: Ref): (pc': Pc)
    requires Touchable(m, pc)
  {
    match pc
    case Idle => Idle
    case PutRead(a, size, b, i, tries) =>
      if m[b].slots[i] == 0 then PutCas(a, size, b, i, tries) else PutSlotBusy(a, size, b, i, tries)
    case PutCas(a, size, b, i, tries) =>
      if m[b].slots[i] == 0 then PutCount(a, size) else PutSlotBusy(a, size, b, i, tries)
    case PutNext(a, size, b, tries) =>
      if m[b].next == Null then PutLock(a, size, b, tries) else PutFollow(a, size, b, tries)
    case PutFollow(a, size, b, tries) => PutRead(a, size, m[b].next, 0, tries)
    case PutLock(a, size, b, tries) => PutLocked(a, size, b, tries)
    case PutLocked(a, size, b, tries) =>
      if m[b].next != Null then PutJoin(a, size, b, tries) else PutLink(a, size, b, tries)
    case PutJoin(a, size, b, tries) => PutUnlock(a, size, b, m[b].next, tries)
    case PutLink(a, size, b, tries) => PutUnlock(a, size, b, newBuck, tries)
    case PutUnlock(a, size, _, b, tries) =>
      if tries + 1 < TRIES then PutRead(a, size, b, 0, tries + 1) else Idle
    case PutCount(_, _) => Idle
    case RemoveRead(a, b, i) =>
      if GetAddress(m[b].slots[i]) == a then RemoveCas(a, b, i, m[b].slots[i])
      else if i + 1 < SLOTS then RemoveRead(a, b, i + 1) else RemoveNext(a, b)
    case RemoveCas(a, _, _, old') => RemoveCount(a, GetSize(old'))
    case RemoveNext(a, b) => if m[b].next == Null then Idle else RemoveRead(a, m[b].next, 0)
    case RemoveCount(_, _) => Idle
  }

  /** What thread t writes. */
  function NextBucks(m: Buckets, pc: Pc, newBuck: Ref): (m': Buckets)
    requires Touchable(m, pc)
  {
    match pc
    case PutCas(a, size, b, i, _) => if m[b].slots[i] == 0 then SetSlot(m, b, i, MakeEntry(a, size)) else m
    case PutLock(_, _, b, _) => m[b := m[b].(locked := true)]
    case PutLink(_, _, b, _) => AddBucket(m, b, newBuck)
    case PutUnlock(_, _, h, _, _) => m[h := m[h].(locked := false)]
    case RemoveCas(_, b, i, old') => if m[b].slots[i] == old' then SetSlot(m, b, i, 0) else m
    case _ => m
  }

  function CountChange(pc: Pc): (d: int) {
    match pc
    case PutCount(_, _) => 1
    case RemoveCount(_, _) => -1
    case _ => 0
  }

  function EventOf(m: Buckets, pc: Pc): (e: Event)
    requires Touchable(m, pc)
  {
    match pc
    case PutCas(a, size, b, i, _) => if m[b].slots[i] == 0 then Stored(a, size) else Silent
    case PutUnlock(a, _, _, _, tries) => if tries + 1 < TRIES then Silent else Refused(a)
    case RemoveCas(a, _, _, old') => Fetched(a, GetSize(old'))
    case RemoveNext(a, b) => if m[b].next == Null then Missed(a) else Silent
    case _ => Silent
  }

  predicate Possible(s: State, t: nat, act: Action) {
    t in s.threads && (act.Advance? ==> Touchable(s.bucks, s.threads[t]))
  }

  /** The state after thread t took the step. */
  function Apply(s: State, t: nat, act: Action, n: nat): (s': State)
    requires n > 0 && Possible(s, t, act)
  {
    match act
    case StartPut(a, size) => s.(threads := s.threads[t := PutRead(a, size, Home(a, n), 0, 0)])
    case StartRemove(a) => s.(threads := s.threads[t := RemoveRead(a, Home(a, n), 0)])
    case Advance(newBuck) =>
      var pc := s.threads[t];
      State(NextBucks(s.bucks, pc, newBuck), s.count + CountChange(pc), s.threads[t := NextPc(s.bucks, pc, newBuck)])
  }

  function Shown(s: State, t: nat, act: Action): (e: Event)
    requires Possible(s, t, act)
  {
    if act.Advance? then EventOf(s.bucks, s.threads[t]) else Silent
  }

  // ----- what the events mean for the map

  predicate Legal(live: map<nat, nat>, e: Event) {
    match e
    case Silent => true
    case Stored(a, _) => a !in live
    case Refused(a) => a !in live
    case Fetched(a, size) => a in live && live[a] == size
    case Missed(a) => a !in live
  }

  function After(live: map<nat, nat>, e: Event): (live': map<nat, nat>) {
    match e
    case Stored(a, size) => live[a := size]
    case Fetched(a, _) => live - {a}
    case _ => live
  }
}
