/**
 Printing worker groups, parsing them back and flattening: every worker gets its group's CPU.
 */
module WorkerRoundTrip {
  import opened Text
  import opened WorkerGroups

  /** Groups the options can hold: a range has one CPU for each thread. */
  predicate Printable(g: Group) {
    && 0 < g.threads <= 128
    && (g.cpus.Range? ==> g.cpus.first <= g.cpus.last < CPU_LIMIT && g.cpus.last - g.cpus.first + 1 == g.threads)
  }

  ghost predicate AllPrintable(gs: seq<Group>) {
    0 < |gs| <= MAX_GROUPS && forall i | 0 <= i < |gs| :: Printable(gs[i])
  }

  // ----- items

  lemma NumberText(n: nat, sep: char)
    requires !IsDigit(sep)
    ensures sep !in ToString(n) && ToString(n) != ""
  {
    ToStringDigits(n);
  }

  lemma CountParsed(n: nat)
    requires 0 < n <= 128
    ensures IsCount(ToString(n)) && CountOf(ToString(n)) == n
  {
    hide Stol;
    StolToString(n);
  }

  /** The pair that a group's CPUs become. */
  function PairFor(c: Cpus): (p: CpuPair) {
    match c
    case Unbound => CpuPair(NO_CPU, 0)
    case Range(first, last) => CpuPair(first % 256, (last - first + 1) % 256)
  }

  lemma RangeSplit(first: nat, last: nat)
    ensures Split(CpuText(Range(first, last)), '-') == [ToString(first), ToString(last)]
    ensures CpuText(Range(first, last)) != "na" && CpuText(Range(first, last)) != "NA"
    ensures ',' !in CpuText(Range(first, last))
  {
    var a, b := ToString(first), ToString(last);
    NumberText(first, '-');
    NumberText(last, '-');
    NumberText(first, ',');
    NumberText(last, ',');
    ToStringDigits(first);
    hide ToString, Split;
    assert a[0] in a;
    assert Join([a, b], '-') == a + ['-'] + Join([b], '-') by { assert [a, b][1..] == [b]; }
    assert CpuText(Range(first, last)) == Join([a, b], '-');
    SplitJoin([a, b], '-');
    assert (a + "-" + b)[0] == a[0];
  }

  lemma RangeParsed(first: nat, last: nat)
    requires first <= last < CPU_LIMIT
    ensures var t := CpuText(Range(first, last)); IsCpus(t) && PairOf(t) == PairFor(Range(first, last))
  {
    hide Stol, Split, CpuText;
    RangeSplit(first, last);
    StolToString(first);
    StolToString(last);
  }

  lemma CpusTextParsed(c: Cpus)
    requires c.Range? ==> c.first <= c.last < CPU_LIMIT
    ensures var t := CpuText(c); IsCpus(t) && PairOf(t) == PairFor(c) && t != "" && ',' !in t
  {
    if c.Range? {
      RangeParsed(c.first, c.last);
      RangeSplit(c.first, c.last);
    }
  }

  // ----- whole strings

  function Threads(gs: seq<Group>): (r: seq<nat>)
    ensures |r| == |gs| && forall i | 0 <= i < |gs| :: r[i] == gs[i].threads
  {
    seq(|gs|, i requires 0 <= i < |gs| => gs[i].threads)
  }

  ghost function PairsFor(gs: seq<Group>): (r: seq<CpuPair>)
    requires forall i | 0 <= i < |gs| :: Printable(gs[i])
    ensures |r| == |gs| && forall i | 0 <= i < |gs| :: r[i] == PairFor(gs[i].cpus)
  {
    seq(|gs|, i requires 0 <= i < |gs| && Printable(gs[i]) => PairFor(gs[i].cpus))
  }

  /** The printed thread counts parse back. */
  lemma GroupsParsed(gs: seq<Group>)
    requires AllPrintable(gs)
    ensures ParsedGroups(Join(ThreadTexts(gs), ',')) == Ok(Threads(gs))
  {
    hide Stol, Split, Join, ToString, IsCount;
    var items := ThreadTexts(gs);
    forall i | 0 <= i < |items|
      ensures items[i] != "" && ',' !in items[i] && IsCount(items[i]) && CountOf(items[i]) == gs[i].threads
    {
      assert Printable(gs[i]);
      NumberText(gs[i].threads, ',');
      CountParsed(gs[i].threads);
    }
    SplitJoin(items, ',');
    assert Counts(items) == Threads(gs);
  }

  /** The printed CPU ranges parse back to their pairs. */
  lemma CpusParsed(gs: seq<Group>)
    requires AllPrintable(gs)
    ensures ParsedCpus(Join(CpuTexts(gs), ',')) == Ok(PairsFor(gs))
  {
    hide Stol, Split, Join, CpuText, IsCpus, PairOf, PairFor;
    var items := CpuTexts(gs);
    forall i | 0 <= i < |items|
      ensures items[i] != "" && ',' !in items[i] && IsCpus(items[i]) && PairOf(items[i]) == PairsFor(gs)[i]
    {
      assert Printable(gs[i]);
      CpusTextParsed(gs[i].cpus);
    }
    SplitJoin(items, ',');
    assert Pairs(items) == PairsFor(gs);
  }

  // ----- CPUs

  /** The CPUs the workers of a group should get. */
  function Wanted(g: Group): (r: seq<int>)
    ensures |r| == g.threads
  {
    seq(g.threads, j => if g.cpus == Unbound then -1 else g.cpus.first + j)
  }

  /** A range whose first CPU survives eight bits and is not the mark for none. */
  predicate Kept(c: Cpus) {
    c.Range? ==> c.first < 256 && c.first != NO_CPU
  }

  /** A group's workers get its CPUs exactly if its first CPU is below 256 and not 128. */
  lemma GroupExactly(g: Group)
    requires Printable(g)
    ensures GroupCpus(g.threads, PairFor(g.cpus)) == Wanted(g) <==> Kept(g.cpus)
  {
    var p := PairFor(g.cpus);
    if g.cpus.Range? {
      assert p.count == g.threads;
      assert GroupCpus(g.threads, p)[0] == if p.first == NO_CPU then -1 else p.first;
      assert Wanted(g)[0] == g.cpus.first;
      if Kept(g.cpus) {
        forall j | 0 <= j < g.threads
          ensures GroupCpus(g.threads, p)[j] == Wanted(g)[j]
        {
          SmallMod(j, g.threads);
        }
      }
    }
  }

  lemma SmallMod(j: nat, n: nat)
    requires j < n
    ensures j % n == j
  {
  }

  function WantedFrom(gs: seq<Group>, k: nat): (r: seq<int>)
    requires k <= |gs|
    decreases |gs| - k
  {
    if k == |gs| then [] else Wanted(gs[k]) + WantedFrom(gs, k + 1)
  }

  lemma SplitEqual(a: seq<int>, b: seq<int>, c: seq<int>, d: seq<int>)
    requires |a| == |c|
    ensures a + b == c + d <==> a == c && b == d
  {
    if a + b == c + d {
      assert a == (a + b)[..|a|] && c == (c + d)[..|a|];
      assert b == (a + b)[|a|..] && d == (c + d)[|a|..];
    }
  }

  lemma {:induction false} FlatExactly(gs: seq<Group>, k: nat)
    requires AllPrintable(gs) && k <= |gs|
    ensures FlatFrom(Threads(gs), PairsFor(gs), k) == WantedFrom(gs, k) <==> forall i | k <= i < |gs| :: Kept(gs[i].cpus)
    decreases |gs| - k
  {
    hide GroupCpus, Wanted, Kept, PairFor;
    if k < |gs| {
      FlatExactly(gs, k + 1);
      assert Printable(gs[k]);
      GroupExactly(gs[k]);
      SplitEqual(GroupCpus(gs[k].threads, PairFor(gs[k].cpus)), FlatFrom(Threads(gs), PairsFor(gs), k + 1),
                 Wanted(gs[k]), WantedFrom(gs, k + 1));
    }
  }

  lemma PairsBind(gs: seq<Group>, allowDuplicatedCpuIds: bool)
    requires AllPrintable(gs)
    ensures Binds(Threads(gs), PairsFor(gs), allowDuplicatedCpuIds, |gs|)
  {
    forall i | 0 <= i < |gs|
      ensures !Misfits(gs[i].threads, PairFor(gs[i].cpus), allowDuplicatedCpuIds) && !ByZero(gs[i].threads, PairFor(gs[i].cpus))
    {
      assert Printable(gs[i]);
    }
  }

  /**
   Printing groups, parsing both strings back and flattening succeeds, and every worker gets its
   group's CPU exactly if no group's first CPU is 128 or beyond 255.
   */
  lemma RoundTrip(gs: seq<Group>, allowDuplicatedCpuIds: bool)
    requires AllPrintable(gs)
    ensures ParsedGroups(Join(ThreadTexts(gs), ',')) == Ok(Threads(gs))
    ensures ParsedCpus(Join(CpuTexts(gs), ',')) == Ok(PairsFor(gs))
    ensures Binds(Threads(gs), PairsFor(gs), allowDuplicatedCpuIds, |gs|)
    ensures FlatFrom(Threads(gs), PairsFor(gs), 0) == WantedFrom(gs, 0) <==> forall i | 0 <= i < |gs| :: Kept(gs[i].cpus)
  {
    hide ParsedGroups, ParsedCpus, Join, FlatFrom, WantedFrom, Binds;
    GroupsParsed(gs);
    CpusParsed(gs);
    PairsBind(gs, allowDuplicatedCpuIds);
    FlatExactly(gs, 0);
  }

  /** CPU 128 alone is accepted and read as none. */
  lemma Cpu128Lost()
    ensures Printable(Group(1, Range(128, 128))) && GroupCpus(1, PairFor(Range(128, 128))) == [-1]
  {
  }

  // ----- counts that eight bits lose

  /** First and last CPU of a range in text. */
  function RangeOf(item: string): (c: Cpus)
    requires IsRange(item)
    ensures c.Range? && c.first <= c.last < CPU_LIMIT
  {
    var p := Split(item, '-');
    Range(Stol(p[0]).n, Stol(p[1]).n)
  }

  /** A range of 256 or 512 CPUs whose first CPU is not read as none. */
  predicate LosesCount(item: string) {
    IsRange(item) && var c := RangeOf(item); c.first % 256 != NO_CPU && (c.last - c.first + 1 == 256 || c.last - c.first + 1 == 512)
  }

  lemma NoRange()
    ensures !IsRange("na") && !IsRange("NA")
  {
    assert "na"[1..][1..] == "" && "NA"[1..][1..] == "";
  }

  /** An accepted item becomes a range without CPUs exactly if it has 256 or 512 of them and does not start at 128 or 384. */
  lemma CountLostExactly(item: string)
    requires IsCpus(item)
    ensures PairOf(item).first != NO_CPU && PairOf(item).count == 0 <==> LosesCount(item)
  {
    NoRange();
    hide Stol, Split;
    if IsRange(item) { MultipleOf256(RangeOf(item).last - RangeOf(item).first + 1); }
  }

  lemma MultipleOf256(n: nat)
    requires 0 < n <= CPU_LIMIT
    ensures n % 256 == 0 <==> n == 256 || n == 512
  {
  }

  /**
   For every pair of accepted strings the flattening divides by zero exactly if CPUs may be shared
   and the first range that cannot be bound is one that lost its count.
   */
  lemma DividesExactly(workerStr: string, cpuStr: string, allowDuplicatedCpuIds: bool, i: nat)
    requires ParsedGroups(workerStr).Ok? && ParsedCpus(cpuStr).Ok?
    ensures var counts, pairs, items := ParsedGroups(workerStr).value, ParsedCpus(cpuStr).value, Split(cpuStr, ',');
            DividesAt(counts, pairs, allowDuplicatedCpuIds, i) <==>
              && allowDuplicatedCpuIds && i < |items| <= |counts| && LosesCount(items[i])
              && forall j | 0 <= j < i :: pairs[j].first == NO_CPU || (pairs[j].count <= counts[j] && !LosesCount(items[j]))
  {
    hide Stol, Split, IsCpus, LosesCount, PairOf;
    var counts, pairs, items := ParsedGroups(workerStr).value, ParsedCpus(cpuStr).value, Split(cpuStr, ',');
    CountsPositive(workerStr);
    forall j | 0 <= j < |items|
      ensures pairs[j].first != NO_CPU && pairs[j].count == 0 <==> LosesCount(items[j])
    {
      assert IsCpus(items[j]);
      CountLostExactly(items[j]);
    }
  }

  lemma CountsPositive(workerStr: string)
    requires ParsedGroups(workerStr).Ok?
    ensures var counts := ParsedGroups(workerStr).value; counts != [] && forall j | 0 <= j < |counts| :: counts[j] > 0
  {
    hide Stol, Split;
  }

  /** Workers "1" with CPUs "0-255": both are accepted, and the flattening divides by zero. */
  lemma CountLost()
    ensures var t := CpuText(Range(0, 255)); IsCpus(t) && PairOf(t) == CpuPair(0, 0)
    ensures DividesAt([1], [CpuPair(0, 0)], true, 0) && !DividesAt([1], [CpuPair(0, 0)], false, 0)
  {
    hide CpuText, IsCpus, PairOf;
    RangeParsed(0, 255);
  }
}
