/**
 Worker groups and their CPU ranges: printed into option strings, parsed back, and flattened to
 one CPU for each worker.
 */
module WorkerGroups {
  import opened Text

  /** A group: its number of threads, and its first and last CPU unless it is not bound. */
  datatype Cpus = Unbound | Range(first: nat, last: nat)

  datatype Group = Group(threads: nat, cpus: Cpus)

  /** First CPU and number of CPUs, each in eight bits; 128 as first CPU stands for none. */
  datatype CpuPair = CpuPair(first: nat, count: nat)

  datatype Result<T> = Ok(value: T) | Invalid

  const NO_CPU: nat := 128
  const MAX_GROUPS: nat := 128
  const CPU_LIMIT: int := 612

  // ----- printing

  function CpuText(c: Cpus): (s: string)
    ensures s != ""
  {
    match c
    case Unbound => "na"
    case Range(first, last) => ToString(first) + "-" + ToString(last)
  }

  function ThreadTexts(gs: seq<Group>): (r: seq<string>)
    ensures |r| == |gs| && forall i | 0 <= i < |gs| :: r[i] == ToString(gs[i].threads)
  {
    seq(|gs|, i requires 0 <= i < |gs| => ToString(gs[i].threads))
  }

  function CpuTexts(gs: seq<Group>): (r: seq<string>)
    ensures |r| == |gs| && forall i | 0 <= i < |gs| :: r[i] == CpuText(gs[i].cpus)
  {
    seq(|gs|, i requires 0 <= i < |gs| => CpuText(gs[i].cpus))
  }

  lemma {:induction false} JoinAppend(items: seq<string>, x: string, sep: char)
    requires x != "" && forall i | 0 <= i < |items| :: items[i] != ""
    ensures Join(items + [x], sep) == (if items == [] then x else Join(items, sep) + [sep] + x)
    ensures items != [] ==> Join(items, sep) != ""
  {
    if |items| == 1 {
      assert (items + [x])[1..] == [x];
    } else if |items| > 1 {
      assert (items + [x])[1..] == items[1..] + [x];
      assert forall i | 0 <= i < |items[1..]| :: items[1..][i] == items[i + 1];
      JoinAppend(items[1..], x, sep);
    }
  }

  lemma JoinNone(sep: char)
    ensures Join([], sep) == ""
  {
  }

  method UnParseWorkerGroups(gs: seq<Group>) returns (strRes: string)
    ensures strRes == Join(ThreadTexts(gs), ',')
  {
    hide ToString, Join;
    strRes := "";
    JoinNone(',');
    for i := 0 to |gs|
      invariant strRes == Join(ThreadTexts(gs)[..i], ',') && (strRes == "" <==> i == 0)
    {
      ghost var items := ThreadTexts(gs);
      assert items[..i + 1] == items[..i] + [items[i]];
      JoinAppend(items[..i], items[i], ',');
      if strRes == "" {
        strRes := strRes + ToString(gs[i].threads);
      } else {
        strRes := strRes + ("," + ToString(gs[i].threads));
      }
    }
    assert ThreadTexts(gs)[..|gs|] == ThreadTexts(gs);
  }

  method UnParseWorkerGroupsCpus(gs: seq<Group>) returns (strRes: string)
    ensures strRes == Join(CpuTexts(gs), ',')
  {
    hide CpuText, Join;
    strRes := "";
    JoinNone(',');
    for i := 0 to |gs|
      invariant strRes == Join(CpuTexts(gs)[..i], ',') && (strRes == "" <==> i == 0)
    {
      ghost var items := CpuTexts(gs);
      assert items[..i + 1] == items[..i] + [items[i]];
      JoinAppend(items[..i], items[i], ',');
      var item := CpuText(gs[i].cpus);
      if strRes == "" {
        strRes := strRes + item;
      } else {
        strRes := strRes + ("," + item);
      }
    }
    assert CpuTexts(gs)[..|gs|] == CpuTexts(gs);
  }

  // ----- parsing

  predicate IsCount(item: string) {
    Stol(item).Value? && 0 < Stol(item).n <= 128
  }

  function CountOf(item: string): (n: nat)
    requires IsCount(item)
    ensures 0 < n <= 128
  {
    Stol(item).n
  }

  function Counts(items: seq<string>): (r: seq<nat>)
    requires forall i | 0 <= i < |items| :: IsCount(items[i])
    ensures |r| == |items| && forall i | 0 <= i < |items| :: r[i] == CountOf(items[i])
  {
    seq(|items|, i requires 0 <= i < |items| && IsCount(items[i]) => CountOf(items[i]))
  }

  lemma SplitNone(sep: char)
    ensures Split("", sep) == []
  {
  }

  /** What a worker string stands for: one group of one worker if it is empty. */
  function ParsedGroups(s: string): (r: Result<seq<nat>>) {
    var items := Split(s, ',');
    if items == [] then Ok([1])
    else if |items| > MAX_GROUPS then Invalid
    else if forall i | 0 <= i < |items| :: IsCount(items[i]) then Ok(Counts(items))
    else Invalid
  }

  method ParseWorkersGroups(workerStr: string) returns (ok: bool, workerGroups: seq<nat>)
    ensures ok <==> ParsedGroups(workerStr).Ok?
    ensures ok ==> workerGroups == ParsedGroups(workerStr).value
  {
    hide Stol, Split;
    SplitNone(',');
    var items := SplitStr(workerStr, ',');
    workerGroups := [];
    if workerStr == "" || items == [] {
      return true, [1];
    } else if |items| > MAX_GROUPS {
      return false, workerGroups;
    }
    for i := 0 to |items|
      invariant forall j | 0 <= j < i :: IsCount(items[j])
      invariant |workerGroups| == i && forall j | 0 <= j < i :: workerGroups[j] == CountOf(items[j])
    {
      var n := Stol(items[i]);
      if n.Value? && n.n > 0 && n.n <= 128 {
        workerGroups := workerGroups + [n.n];
      } else {
        assert !IsCount(items[i]);
        return false, workerGroups;
      }
    }
    ok := true;
  }

  /** A CPU range in text: two numbers in order, each below the limit. */
  predicate IsRange(item: string) {
    var p := Split(item, '-');
    && |p| == 2 && Stol(p[0]).Value? && Stol(p[1]).Value?
    && 0 <= Stol(p[0]).n < CPU_LIMIT && 0 <= Stol(p[1]).n < CPU_LIMIT && Stol(p[0]).n <= Stol(p[1]).n
  }

  predicate IsCpus(item: string) {
    item == "na" || item == "NA" || IsRange(item)
  }

  /** The pair kept for an item: both numbers lose all but their low eight bits. */
  function PairOf(item: string): (p: CpuPair)
    requires IsCpus(item)
  {
    if item == "na" || item == "NA" then CpuPair(NO_CPU, 0)
    else
      var p := Split(item, '-');
      var first, last := Stol(p[0]).n, Stol(p[1]).n;
      CpuPair(first % 256, (last - first + 1) % 256)
  }

  function Pairs(items: seq<string>): (r: seq<CpuPair>)
    requires forall i | 0 <= i < |items| :: IsCpus(items[i])
    ensures |r| == |items| && forall i | 0 <= i < |items| :: r[i] == PairOf(items[i])
  {
    seq(|items|, i requires 0 <= i < |items| => PairOf(items[i]))
  }

  function ParsedCpus(s: string): (r: Result<seq<CpuPair>>) {
    var items := Split(s, ',');
    if |items| > MAX_GROUPS then Invalid
    else if forall i | 0 <= i < |items| :: IsCpus(items[i]) then Ok(Pairs(items))
    else Invalid
  }

  method ParseWorkerGroupsCpus(str: string) returns (ok: bool, cpus: seq<CpuPair>)
    ensures ok <==> ParsedCpus(str).Ok?
    ensures ok ==> cpus == ParsedCpus(str).value
  {
    hide Stol, Split;
    SplitNone(',');
    var items := SplitStr(str, ',');
    cpus := [];
    if str == "" || items == [] {
      return true, [];
    } else if |items| > MAX_GROUPS {
      return false, cpus;
    }
    for i := 0 to |items|
      invariant forall j | 0 <= j < i :: IsCpus(items[j])
      invariant |cpus| == i && forall j | 0 <= j < i :: cpus[j] == PairOf(items[j])
    {
      var item := items[i];
      if item == "na" || item == "NA" {
        cpus := cpus + [CpuPair(NO_CPU, 0)];
      } else {
        var ids := SplitStr(item, '-');
        if |ids| != 2 {
          assert !IsCpus(items[i]);
          return false, cpus;
        }
        var first, last := Stol(ids[0]), Stol(ids[1]);
        if first == Bad || last == Bad || first.n < 0 || first.n >= CPU_LIMIT || last.n < 0 || last.n >= CPU_LIMIT || first.n > last.n {
          assert !IsCpus(items[i]);
          return false, cpus;
        }
        cpus := cpus + [CpuPair(first.n % 256, (last.n - first.n + 1) % 256)];
      }
    }
    ok := true;
  }

  // ----- flattening

  /** The CPUs of a group's workers: from the first on, starting over after count, or none. */
  function GroupCpus(threads: nat, pair: CpuPair): (r: seq<int>)
    ensures |r| == threads
  {
    seq(threads, j requires 0 <= j => if pair.first == NO_CPU || pair.count == 0 then -1 else pair.first + j % pair.count)
  }

  function PairAt(pairs: seq<CpuPair>, i: nat): (p: CpuPair) {
    if i < |pairs| then pairs[i] else CpuPair(NO_CPU, 0)
  }

  /** Binding this group divides by its count of 0. */
  predicate ByZero(workers: nat, pair: CpuPair) {
    pair.first != NO_CPU && pair.count == 0 && workers > 0
  }

  /** The range has too many CPUs for the group, or not one for each worker where each needs its own. */
  predicate Misfits(workers: nat, pair: CpuPair, allowDuplicatedCpuIds: bool) {
    pair.first != NO_CPU && (pair.count > workers || (!allowDuplicatedCpuIds && pair.count != workers))
  }

  /** The CPUs of the workers of groups k and up. */
  ghost function FlatFrom(counts: seq<nat>, pairs: seq<CpuPair>, k: nat): (r: seq<int>)
    requires k <= |counts|
    decreases |counts| - k
  {
    if k == |counts| then [] else GroupCpus(counts[k], PairAt(pairs, k)) + FlatFrom(counts, pairs, k + 1)
  }

  function Sum(counts: seq<nat>, k: nat): (n: nat)
    requires k <= |counts|
  {
    if k == 0 then 0 else Sum(counts, k - 1) + counts[k - 1]
  }

  /** Every one of the first k ranges can be bound to its group. */
  ghost predicate Binds(counts: seq<nat>, pairs: seq<CpuPair>, allowDuplicatedCpuIds: bool, k: nat)
    requires k <= |pairs| <= |counts|
  {
    forall i | 0 <= i < k :: !Misfits(counts[i], pairs[i], allowDuplicatedCpuIds) && !ByZero(counts[i], pairs[i])
  }

  /** The first range that cannot be bound is one that the flattening divides by. */
  ghost predicate DividesAt(counts: seq<nat>, pairs: seq<CpuPair>, allowDuplicatedCpuIds: bool, i: nat) {
    && i < |pairs| <= |counts| && Binds(counts, pairs, allowDuplicatedCpuIds, i)
    && !Misfits(counts[i], pairs[i], allowDuplicatedCpuIds) && ByZero(counts[i], pairs[i])
  }

  function Blank(n: nat): (r: seq<int>)
    ensures |r| == n && forall i | 0 <= i < n :: r[i] == -1
  {
    seq(n, _ => -1)
  }

  lemma {:induction false} SumMonotone(counts: seq<nat>, j: nat, k: nat)
    requires j <= k <= |counts|
    ensures Sum(counts, j) <= Sum(counts, k)
  {
    if j < k { SumMonotone(counts, j, k - 1); }
  }

  lemma BlankJoin(m: nat, n: nat)
    ensures Blank(m) + Blank(n) == Blank(m + n)
  {
  }

  lemma UnboundBlank(n: nat, pair: CpuPair)
    requires pair.first == NO_CPU
    ensures GroupCpus(n, pair) == Blank(n)
  {
  }

  /** Groups without a range leave their workers unbound. */
  lemma {:induction false} FlatUnbound(counts: seq<nat>, pairs: seq<CpuPair>, k: nat)
    requires |pairs| <= k <= |counts|
    ensures Sum(counts, k) <= Sum(counts, |counts|)
    ensures FlatFrom(counts, pairs, k) == Blank(Sum(counts, |counts|) - Sum(counts, k))
    decreases |counts| - k
  {
    hide GroupCpus, Blank;
    SumMonotone(counts, k, |counts|);
    if k < |counts| {
      FlatUnbound(counts, pairs, k + 1);
      UnboundBlank(counts[k], PairAt(pairs, k));
      BlankJoin(counts[k], Sum(counts, |counts|) - Sum(counts, k + 1));
    } else {
      assert Blank(0) == [];
    }
  }

  /** The flattened list so far: done for the groups before k, blank behind. */
  ghost predicate Flattening(counts: seq<nat>, pairs: seq<CpuPair>, k: nat, done: seq<int>, flat: seq<int>)
    requires k <= |counts|
  {
    && |done| == Sum(counts, k) <= Sum(counts, |counts|)
    && flat == done + Blank(Sum(counts, |counts|) - |done|)
    && done + FlatFrom(counts, pairs, k) == FlatFrom(counts, pairs, 0)
  }

  lemma BlankTail(done: seq<int>, m: nat, n: nat)
    requires n <= m
    ensures (done + Blank(m))[..|done|] == done && (done + Blank(m))[|done| + n..] == Blank(m - n)
  {
  }

  lemma FlatNext(counts: seq<nat>, pairs: seq<CpuPair>, k: nat)
    requires k < |counts|
    ensures FlatFrom(counts, pairs, k) == GroupCpus(counts[k], PairAt(pairs, k)) + FlatFrom(counts, pairs, k + 1)
  {
  }

  lemma FlatteningStep(counts: seq<nat>, pairs: seq<CpuPair>, k: nat, done: seq<int>, flat: seq<int>, flat': seq<int>)
    requires k < |counts| && Flattening(counts, pairs, k, done, flat)
    requires |flat| == Sum(counts, |counts|) && |done| + counts[k] <= |flat|
    requires flat' == flat[..|done|] + GroupCpus(counts[k], PairAt(pairs, k)) + flat[|done| + counts[k]..]
    ensures Flattening(counts, pairs, k + 1, done + GroupCpus(counts[k], PairAt(pairs, k)), flat')
  {
    hide GroupCpus, Blank, FlatFrom;
    BlankTail(done, Sum(counts, |counts|) - |done|, counts[k]);
    FlatNext(counts, pairs, k);
    assert done + (GroupCpus(counts[k], PairAt(pairs, k)) + FlatFrom(counts, pairs, k + 1))
        == done + GroupCpus(counts[k], PairAt(pairs, k)) + FlatFrom(counts, pairs, k + 1);
  }

  lemma FlatteningEnd(counts: seq<nat>, pairs: seq<CpuPair>, k: nat, done: seq<int>, flat: seq<int>)
    requires |pairs| <= k <= |counts| && Flattening(counts, pairs, k, done, flat)
    ensures flat == FlatFrom(counts, pairs, 0)
  {
    hide Blank;
    FlatUnbound(counts, pairs, k);
  }

  lemma FlatteningStart(counts: seq<nat>, pairs: seq<CpuPair>)
    ensures Flattening(counts, pairs, 0, [], Blank(Sum(counts, |counts|)))
  {
    hide Blank;
    SumMonotone(counts, 0, |counts|);
    assert [] + Blank(Sum(counts, |counts|)) == Blank(Sum(counts, |counts|));
  }

  /** A group without CPUs stays blank. */
  lemma Untouched(counts: seq<nat>, pairs: seq<CpuPair>, k: nat, done: seq<int>, flat: seq<int>)
    requires k < |counts| && Flattening(counts, pairs, k, done, flat) && PairAt(pairs, k).first == NO_CPU
    requires |flat| == Sum(counts, |counts|) && |done| + counts[k] <= |flat|
    ensures flat == flat[..|done|] + GroupCpus(counts[k], PairAt(pairs, k)) + flat[|done| + counts[k]..]
  {
    hide GroupCpus, Blank, FlatFrom;
    var m, n := Sum(counts, |counts|) - |done|, counts[k];
    UnboundBlank(n, PairAt(pairs, k));
    BlankTail(done, m, n);
    BlankJoin(n, m - n);
  }

  /** Index of worker j of group i among all workers. */
  function WorkerOf(counts: seq<nat>, i: nat, j: nat): (k: nat)
    requires i <= |counts|
  {
    Sum(counts, i) + j
  }

  lemma {:induction false} WorkerAt(counts: seq<nat>, pairs: seq<CpuPair>, k: nat, i: nat, j: nat)
    requires k <= i < |counts| && j < counts[i]
    ensures |FlatFrom(counts, pairs, k)| == Sum(counts, |counts|) - Sum(counts, k)
    ensures Sum(counts, k) <= WorkerOf(counts, i, j) < Sum(counts, |counts|)
    ensures FlatFrom(counts, pairs, k)[WorkerOf(counts, i, j) - Sum(counts, k)] == GroupCpus(counts[i], PairAt(pairs, i))[j]
    decreases |counts| - k
  {
    hide GroupCpus, FlatFrom;
    SumMonotone(counts, k, i);
    SumMonotone(counts, i + 1, |counts|);
    FlatLength(counts, pairs, k);
    FlatNext(counts, pairs, k);
    if k < i { WorkerAt(counts, pairs, k + 1, i, j); }
  }

  lemma {:induction false} FlatLength(counts: seq<nat>, pairs: seq<CpuPair>, k: nat)
    requires k <= |counts|
    ensures |FlatFrom(counts, pairs, k)| == Sum(counts, |counts|) - Sum(counts, k)
    decreases |counts| - k
  {
    hide GroupCpus, FlatFrom;
    if k < |counts| {
      FlatLength(counts, pairs, k + 1);
      FlatNext(counts, pairs, k);
    } else {
      FlatNone(counts, pairs);
    }
  }

  lemma FlatNone(counts: seq<nat>, pairs: seq<CpuPair>)
    ensures FlatFrom(counts, pairs, |counts|) == []
  {
  }

  /** Worker j of a group with a range is bound to the range's CPU number j, counted round. */
  lemma WorkersAt(counts: seq<nat>, pairs: seq<CpuPair>)
    ensures |FlatFrom(counts, pairs, 0)| == Sum(counts, |counts|)
    ensures forall i: nat, j: nat | i < |counts| && j < counts[i] ::
              && WorkerOf(counts, i, j) < |FlatFrom(counts, pairs, 0)|
              && FlatFrom(counts, pairs, 0)[WorkerOf(counts, i, j)] ==
                 if i < |pairs| && pairs[i].first != NO_CPU && pairs[i].count > 0 then pairs[i].first + j % pairs[i].count else -1
  {
    hide FlatFrom, Sum, WorkerOf;
    FlatLength(counts, pairs, 0);
    assert Sum(counts, 0) == 0 by { SumNone(counts); }
    forall i: nat, j: nat | i < |counts| && j < counts[i]
      ensures WorkerOf(counts, i, j) < |FlatFrom(counts, pairs, 0)|
      ensures FlatFrom(counts, pairs, 0)[WorkerOf(counts, i, j)] ==
              if i < |pairs| && pairs[i].first != NO_CPU && pairs[i].count > 0 then pairs[i].first + j % pairs[i].count else -1
    {
      WorkerAt(counts, pairs, 0, i, j);
    }
  }

  lemma SumNone(counts: seq<nat>)
    ensures Sum(counts, 0) == 0
  {
  }

  datatype Flattened = Flat(cpus: seq<int>) | Refused | DividesByZero

  /**
   Bind the workers of each group to the CPUs of its range. It is refused at the first range that
   does not fit its group, and a range without CPUs for a group with workers is divided by.
   */
  method FinalizeWorkerGroupCpus(counts: seq<nat>, pairs: seq<CpuPair>, allowDuplicatedCpuIds: bool) returns (r: Flattened)
    ensures r.Flat? <==> counts != [] && |pairs| <= |counts| && Binds(counts, pairs, allowDuplicatedCpuIds, |pairs|)
    ensures r == DividesByZero <==> exists i: nat :: DividesAt(counts, pairs, allowDuplicatedCpuIds, i)
    ensures r.Flat? ==> r.cpus == FlatFrom(counts, pairs, 0) && |r.cpus| == Sum(counts, |counts|)
    ensures r.Flat? ==> forall i: nat, j: nat | i < |counts| && j < counts[i] ::
              && WorkerOf(counts, i, j) < |r.cpus|
              && r.cpus[WorkerOf(counts, i, j)] ==
                 if i < |pairs| && pairs[i].first != NO_CPU && pairs[i].count > 0 then pairs[i].first + j % pairs[i].count else -1
  {
    hide FlatFrom, Flattening, GroupCpus, Blank;
    if counts == [] || |counts| < |pairs| {
      return Refused;
    }
    var totalWorkers := 0;
    for i := 0 to |counts|
      invariant totalWorkers == Sum(counts, i)
    {
      totalWorkers := totalWorkers + counts[i];
    }
    var flat := Blank(totalWorkers);
    FlatteningStart(counts, pairs);
    ghost var done: seq<int> := [];
    var index := 0;
    for i := 0 to |pairs|
      invariant index == |done| == Sum(counts, i) && |flat| == totalWorkers == Sum(counts, |counts|)
      invariant Flattening(counts, pairs, i, done, flat) && Binds(counts, pairs, allowDuplicatedCpuIds, i)
    {
      var pair, workers := pairs[i], counts[i];
      SumMonotone(counts, i + 1, |counts|);
      ghost var flat0 := flat;
      if pair.first == NO_CPU {
        Untouched(counts, pairs, i, done, flat);
      } else {
        if pair.count > workers || (!allowDuplicatedCpuIds && pair.count != workers) {
          assert Misfits(counts[i], pairs[i], allowDuplicatedCpuIds);
          return Refused;
        }
        if pair.count == 0 && workers > 0 {
          assert DividesAt(counts, pairs, allowDuplicatedCpuIds, i);
          return DividesByZero;
        }
        flat := SetGroup(flat, index, workers, pair);
      }
      FlatteningStep(counts, pairs, i, done, flat0, flat);
      done := done + GroupCpus(workers, pair);
      index := index + workers;
    }
    FlatteningEnd(counts, pairs, |pairs|, done, flat);
    WorkersAt(counts, pairs);
    r := Flat(flat);
  }

  /** Bind the workers of one group. */
  method SetGroup(flat: seq<int>, index: nat, workers: nat, pair: CpuPair) returns (r: seq<int>)
    requires index + workers <= |flat| && pair.first != NO_CPU && (pair.count > 0 || workers == 0)
    ensures r == flat[..index] + GroupCpus(workers, pair) + flat[index + workers..]
  {
    r := flat;
    for j := 0 to workers
      invariant |r| == |flat| && r[..index] == flat[..index] && r[index + j..] == flat[index + j..]
      invariant r[index..index + j] == GroupCpus(workers, pair)[..j]
    {
      ghost var r0 := r;
      r := r[index + j := pair.first + j % pair.count];
      assert r[index..index + j + 1] == r0[index..index + j] + [pair.first + j % pair.count];
      assert r[index + j + 1..] == r0[index + j..][1..];
      assert flat[index + j + 1..] == flat[index + j..][1..];
    }
    assert r == r[..index] + r[index..index + workers] + r[index + workers..];
  }
}
