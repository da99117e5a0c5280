/**
 Runs of an allocator with aligned addresses, as changes to its free and held blocks: exactly when
 every free area along every run holds its own node.
 */
module MemRuns {
  import opened MemBlocks
  import opened MemAreas
  import opened MemTake
  import opened MemPartition
  import opened MemUnits
  import opened Multiples
  import opened MemAccounts
  import opened MemNodes
  import opened MemAllocator

  datatype State = State(bs: seq<Block>, held: Held)

  /** Hand out n bytes from free area k, or take back the block at a between the first k areas and the others. */
  datatype Step = Take(k: nat, n: nat) | Return(a: nat, k: nat)

  ghost predicate Enabled(s: State, step: Step, unit: nat)
    requires unit > 0
  {
    match step
    case Take(k, n) => k < |s.bs| && 0 < n <= s.bs[k].len && Multiple(n, unit)
    case Return(a, k) => a in s.held && k <= |s.bs| && Fits(s.bs[..k], Block(a, s.held[a]), s.bs[k..])
  }

  function Apply(s: State, step: Step): (s': State)
    requires step.Take? ==> step.k < |s.bs| && step.n <= s.bs[step.k].len
    requires step.Return? ==> step.a in s.held && step.k <= |s.bs|
  {
    match step
    case Take(k, n) => State(Taken(s.bs, k, n, s.bs[k].len == n), s.held[s.bs[k].start := n])
    case Return(a, k) => State(Joined(s.bs[..k], Block(a, s.held[a]), s.bs[k..]), s.held - {a})
  }

  /** The steps lead from s to s'. */
  ghost predicate Leads(s: State, steps: seq<Step>, s': State, unit: nat)
    requires unit > 0
    decreases |steps|
  {
    if steps == [] then s' == s
    else Enabled(s, steps[0], unit) && Leads(Apply(s, steps[0]), steps[1..], s', unit)
  }

  /** One free area, nothing handed out. */
  function Initial(lo: nat, size: nat): (s: State) {
    State([Block(lo, size)], map[])
  }

  /** Along every run every free area holds a node. */
  ghost predicate NeverShort(lo: nat, size: nat, unit: nat)
    requires unit > 0
  {
    forall steps, s' | Leads(Initial(lo, size), steps, s', unit) :: Long(s'.bs, 0)
  }

  ghost predicate Ok(s: State, lo: nat, hi: nat, unit: nat) {
    AlignedOk(s.bs, s.held, Total(s.bs), lo, hi, unit)
  }

  lemma StepKeeps(s: State, step: Step, lo: nat, hi: nat, unit: nat)
    requires Ok(s, lo, hi, unit) && unit > 0 && Enabled(s, step, unit)
    ensures Ok(Apply(s, step), lo, hi, unit)
  {
    hide AlignedOk, Taken, Joined, Fits, Multiple;
    match step
    case Take(k, n) =>
      AlignedTaken(s.bs, s.held, Total(s.bs), lo, hi, unit, k, n);
      TakenTotal(s.bs, k, n, s.bs[k].len == n);
    case Return(a, k) =>
      var b := Block(a, s.held[a]);
      AlignedJoined(s.bs, s.held, Total(s.bs), lo, hi, unit, a, k);
      assert s.bs[..k] + s.bs[k..] == s.bs;
      GoodRun(s, lo, hi, unit, a);
      JoinedTotal(s.bs[..k], b, s.bs[k..]);
  }

  lemma GoodRun(s: State, lo: nat, hi: nat, unit: nat, a: nat)
    requires Ok(s, lo, hi, unit) && a in s.held
    ensures Gapped(s.bs) && s.held[a] > 0
  {
  }

  lemma {:induction false} LeadsKeeps(s: State, steps: seq<Step>, s': State, lo: nat, hi: nat, unit: nat)
    requires unit > 0 && Ok(s, lo, hi, unit) && Leads(s, steps, s', unit)
    ensures Ok(s', lo, hi, unit)
    decreases |steps|
  {
    hide Ok, Fits, Multiple, Taken, Joined;
    if steps != [] {
      StepKeeps(s, steps[0], lo, hi, unit);
      LeadsKeeps(Apply(s, steps[0]), steps[1..], s', lo, hi, unit);
    }
  }

  lemma OkLong(s: State, lo: nat, hi: nat, unit: nat)
    requires Ok(s, lo, hi, unit)
    ensures Long(s.bs, 0)
  {
    hide Gapped, Gridded, Parted, Multiple, RestFits;
    GridAllLong(s.bs, lo, hi, unit);
  }

  lemma InitialOk(lo: nat, size: nat, unit: nat)
    requires unit >= SMALLEST && size >= unit && RestFits(size, unit)
    ensures Ok(Initial(lo, size), lo, lo + size, unit)
  {
    JoinedOk(true, map[], lo, lo + size, unit);
    TotalOne(Block(lo, size));
  }

  /** One request for all whole blocks leaves the rest of the range. */
  lemma RestIsLeft(lo: nat, size: nat, unit: nat)
    requires unit >= SMALLEST && size >= unit && size % unit > 0
    ensures var n := size - size % unit;
            && n >= unit && Enabled(Initial(lo, size), Take(0, n), unit)
            && Apply(Initial(lo, size), Take(0, n)).bs == [Block(lo + n, size % unit)]
  {
    DivMod(size, unit);
    var q := size / unit;
    TimesMultiple(q, unit);
    assert size % unit < unit;
    assert q * unit > 0;
    MulAtLeast(q, unit);
  }

  /**
   Along every run every free area holds a node exactly if the range is a whole number of blocks
   or its rest holds one.
   */
  lemma NeverShortExactly(lo: nat, size: nat, unit: nat)
    requires unit >= SMALLEST && size >= unit
    ensures NeverShort(lo, size, unit) <==> RestFits(size, unit)
  {
    hide Ok, Enabled, Apply, Initial;
    if RestFits(size, unit) {
      InitialOk(lo, size, unit);
      forall steps, s' | Leads(Initial(lo, size), steps, s', unit)
        ensures Long(s'.bs, 0)
      {
        LeadsKeeps(Initial(lo, size), steps, s', lo, lo + size, unit);
        OkLong(s', lo, lo + size, unit);
      }
    } else {
      RestIsLeft(lo, size, unit);
      var step := Take(0, size - size % unit);
      var s' := Apply(Initial(lo, size), step);
      assert s'.bs[0].len < NODE_SIZE;
      assert [step][1..] == [];
      assert Leads(Initial(lo, size), [step], s', unit);
    }
  }

  /** 8200 bytes in blocks of 4096: accepted, and two blocks later 8 bytes are left for a node of 72. */
  lemma EightBytesLeft(lo: nat)
    requires lo > 0
    ensures CheckOptions(lo, 8200, 4096) == MemAllocator.Ok
    ensures Leads(Initial(lo, 8200), [Take(0, 4096), Take(0, 4096)],
                  State([Block(lo + 8192, 8)], map[lo := 4096, lo + 4096 := 4096]), 4096)
  {
    Pow2Page();
    var steps := [Take(0, 4096), Take(0, 4096)];
    var s1 := State([Block(lo + 4096, 4104)], map[lo := 4096]);
    assert Apply(Initial(lo, 8200), steps[0]) == s1;
    assert steps[1..] == [steps[1]] && steps[1..][1..] == [];
    assert Apply(s1, steps[1]) == State([Block(lo + 8192, 8)], map[lo := 4096, lo + 4096 := 4096]);
  }
}
