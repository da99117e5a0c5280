/**
 The list of pending timers: a doubly linked list behind a header, which holds one reference on
 every timer in it.
 */
module TimerList {
  import opened Sequences

  /** What comes before a timer: nothing, the header, or another timer. */
  datatype Before = Nothing | Header | Timer(t: nat)

  datatype TimerCell = TimerCell(prev: Before, next: nat, refs: int)

  type Timers = map<nat, TimerCell>

  function NextOf(s: seq<nat>, i: nat): (p: nat) {
    if i + 1 < |s| then s[i + 1] else 0
  }

  function PrevOf(s: seq<nat>, i: nat): (p: Before)
    requires i <= |s|
  {
    if i == 0 then Header else Timer(s[i - 1])
  }

  /** Timer i of s has the next one behind it and the one before it in front. */
  ghost predicate InPlace(timers: Timers, s: seq<nat>, i: nat)
    requires i < |s|
  {
    s[i] != 0 && s[i] in timers && timers[s[i]].next == NextOf(s, i) && timers[s[i]].prev == PrevOf(s, i)
  }

  ghost predicate Chained(timers: Timers, first: nat, s: seq<nat>) {
    first == (if s == [] then 0 else s[0]) && forall i | 0 <= i < |s| :: InPlace(timers, s, i)
  }

  /** Timers outside the list are linked to nothing. */
  ghost predicate Loose(timers: Timers, s: seq<nat>) {
    0 !in timers && forall t | t in timers && t !in s :: timers[t].prev == Nothing
  }

  ghost predicate Held(timers: Timers, s: seq<nat>) {
    forall t | t in s && t in timers :: timers[t].refs >= 1
  }

  /** The list owns one of a timer's references; the rest is others' business. */
  function Owned(s: seq<nat>, t: nat): (n: nat) {
    if t in s then 1 else 0
  }

  lemma Apart(s: seq<nat>, t: nat)
    requires NoRepeats(s) && t !in s
    ensures NoRepeats([t] + s)
  {
  }

  /** The cells after a timer was linked between the header and the first one. */
  function AddCells(timers: Timers, first: nat, t: nat): (r: Timers)
    requires t in timers && (first != 0 ==> first in timers)
  {
    var a := timers[t := TimerCell(Header, first, timers[t].refs)];
    if first != 0 then a[first := a[first].(prev := Timer(t))] else a
  }

  lemma AddedChain(timers: Timers, first: nat, s: seq<nat>, t: nat)
    requires Chained(timers, first, s) && NoRepeats(s) && t in timers && t !in s && t != 0
    ensures (first != 0 ==> first in timers && first != t) && Chained(AddCells(timers, first, t), t, [t] + s)
  {
    var r := [t] + s;
    if s != [] { assert InPlace(timers, s, 0); }
    var cells := AddCells(timers, first, t);
    forall i | 0 <= i < |r|
      ensures InPlace(cells, r, i)
    {
      if i > 0 {
        assert r[i] == s[i - 1] && s[i - 1] in s && InPlace(timers, s, i - 1);
        if i > 1 { assert s[0] != s[i - 1]; }
      }
    }
  }

  lemma AddedLoose(timers: Timers, first: nat, s: seq<nat>, t: nat)
    requires Chained(timers, first, s) && Loose(timers, s) && t in timers && (first != 0 ==> first in timers)
    ensures Loose(AddCells(timers, first, t), [t] + s)
  {
    assert forall u :: u in [t] + s <==> u == t || u in s;
  }

  /** The cells after the timer between l and r was unlinked. */
  function DropCells(timers: Timers, t: nat): (r: Timers)
    requires t in timers
  {
    var prev, next := timers[t].prev, timers[t].next;
    var a := if prev.Timer? && prev.t in timers then timers[prev.t := timers[prev.t].(next := next)] else timers;
    var b := if next != 0 && next in a then a[next := a[next].(prev := prev)] else a;
    b[t := TimerCell(Nothing, 0, b[t].refs)]
  }

  lemma DroppedChain(timers: Timers, first: nat, l: seq<nat>, t: nat, r: seq<nat>)
    requires Chained(timers, first, l + [t] + r) && NoRepeats(l + [t] + r) && t in timers
    ensures Chained(DropCells(timers, t), if l == [] then timers[t].next else first, l + r)
  {
    var s, q := l + [t] + r, l + r;
    var cells := DropCells(timers, t);
    assert InPlace(timers, s, |l|);
    Neighbours(timers, first, l, t, r);
    forall i | 0 <= i < |q|
      ensures InPlace(cells, q, i)
    {
      var j := if i < |l| then i else i + 1;
      assert q[i] == s[j] && InPlace(timers, s, j) && s[j] != s[|l|];
      if j + 1 < |l| { assert s[j] != s[|l| - 1]; }
      if j > |l| { assert l != [] ==> s[j] != s[|l| - 1]; }
      if j > |l| + 1 { assert s[j] != s[|l| + 1]; }
      if j < |l| { assert r != [] ==> s[j] != s[|l| + 1]; }
    }
  }

  lemma Neighbours(timers: Timers, first: nat, l: seq<nat>, t: nat, r: seq<nat>)
    requires Chained(timers, first, l + [t] + r) && NoRepeats(l + [t] + r)
    ensures t in timers && timers[t].next == (if r == [] then 0 else r[0]) && timers[t].prev == (if l == [] then Header else Timer(l[|l| - 1]))
    ensures r != [] ==> r[0] in timers && r[0] != 0 && r[0] != t
    ensures l != [] ==> l[|l| - 1] in timers && l[|l| - 1] != t
  {
    var s := l + [t] + r;
    assert InPlace(timers, s, |l|);
    if r != [] { assert s[|l| + 1] == r[0] && InPlace(timers, s, |l| + 1); }
    if l != [] { assert s[|l| - 1] == l[|l| - 1] && InPlace(timers, s, |l| - 1); }
  }

  lemma DroppedLoose(timers: Timers, l: seq<nat>, t: nat, r: seq<nat>, first: nat)
    requires Chained(timers, first, l + [t] + r) && NoRepeats(l + [t] + r) && Loose(timers, l + [t] + r) && t in timers
    ensures Loose(DropCells(timers, t), l + r)
    ensures forall u | u in timers :: u in DropCells(timers, t) && DropCells(timers, t)[u].refs == timers[u].refs
    ensures DropCells(timers, t).Keys == timers.Keys
  {
    Neighbours(timers, first, l, t, r);
    assert forall u :: u in l + [t] + r <==> u in l || u == t || u in r;
    assert r != [] ==> r[0] in r;
  }

  lemma SplitAt(s: seq<nat>, t: nat) returns (l: seq<nat>, r: seq<nat>)
    requires t in s && NoRepeats(s)
    ensures s == l + [t] + r && NoRepeats(l + r) && forall u :: u in l + r <==> u in s && u != t
  {
    var k :| 0 <= k < |s| && s[k] == t;
    l, r := s[..k], s[k + 1..];
    forall u | u in s && u != t
      ensures u in l + r
    {
      var i :| 0 <= i < |s| && s[i] == u;
      assert (l + r)[if i < k then i else i - 1] == u;
    }
  }

  /** A timer in the list has something before it. */
  lemma ListedLinked(timers: Timers, first: nat, s: seq<nat>, t: nat)
    requires Chained(timers, first, s) && Loose(timers, s)
    ensures t in timers ==> (timers[t].prev == Nothing <==> t !in s)
    ensures t in s ==> t in timers && t != 0
    ensures s != [] ==> first in timers && first != 0
  {
    if t in s {
      var i :| 0 <= i < |s| && s[i] == t;
      assert InPlace(timers, s, i);
    }
    if s != [] { assert InPlace(timers, s, 0); }
  }

  class SerTimerListHeader {
    var timers: Timers
    var first: nat
    var ctxCount: nat
    ghost var listed: seq<nat>

    ghost predicate Valid()
      reads this
    {
      Chained(timers, first, listed) && Loose(timers, listed) && NoRepeats(listed) && ctxCount == |listed| && Held(timers, listed)
    }

    constructor (timers: Timers)
      requires 0 !in timers && forall t | t in timers :: timers[t].prev == Nothing
      ensures Valid() && listed == [] && this.timers == timers
    {
      this.timers, first, ctxCount := timers, 0, 0;
      listed := [];
    }

    /** Put a timer at the head of the list: one more reference. */
    method AddTimerCtx(timer: nat)
      requires Valid() && (timer != 0 ==> timer in timers && timer !in listed && timers[timer].refs >= 0)
      modifies this
      ensures Valid() && timers.Keys == old(timers.Keys)
      ensures timer == 0 ==> unchanged(this)
      ensures timer != 0 ==> listed == [timer] + old(listed)
      ensures SameOthers(old(timers), old(listed), timers, listed)
    {
      hide Chained, Loose, NoRepeats, Held, SameOthers;
      if timer == 0 {
        NoOthers(timers, listed);
        return;
      }
      Apart(listed, timer);
      ListedLinked(timers, first, listed, first);
      AddedChain(timers, first, listed, timer);
      AddedLoose(timers, first, listed, timer);
      timers := timers[timer := timers[timer].(prev := Header)];
      timers := timers[timer := timers[timer].(next := first)];
      if first != 0 {
        timers := timers[first := timers[first].(prev := Timer(timer))];
      }
      first := timer;
      ctxCount := ctxCount + 1;
      ghost var cells := timers;
      timers := timers[timer := timers[timer].(refs := timers[timer].refs + 1)];
      listed := [timer] + listed;
      Counted(old(timers), old(listed), old(first), cells, timers, listed, timer, first);
    }

    /** Take a timer out and drop its reference; a timer that is not in the list is left alone. */
    method RemoveTimerCtx(timer: nat)
      requires Valid() && (timer != 0 ==> timer in timers)
      modifies this
      ensures Valid() && timers.Keys == old(timers.Keys)
      ensures timer !in old(listed) ==> unchanged(this)
      ensures timer in old(listed) ==> exists l, r :: old(listed) == l + [timer] + r && listed == l + r
      ensures SameOthers(old(timers), old(listed), timers, listed)
    {
      hide Chained, Loose, NoRepeats, Held, SameOthers;
      NoOthers(timers, listed);
      ListedLinked(timers, first, listed, timer);
      if timer == 0 {
        return;
      }
      if timers[timer].prev == Nothing {
        return;
      }
      ghost var l, r := SplitAt(listed, timer);
      Neighbours(timers, first, l, timer, r);
      DroppedChain(timers, first, l, timer, r);
      DroppedLoose(timers, l, timer, r, first);
      var prev, next := timers[timer].prev, timers[timer].next;
      if prev == Header {
        first := next;
      } else {
        timers := timers[prev.t := timers[prev.t].(next := next)];
      }
      if next != 0 {
        timers := timers[next := timers[next].(prev := prev)];
      }
      ctxCount := ctxCount - 1;
      timers := timers[timer := timers[timer].(prev := Nothing)];
      timers := timers[timer := timers[timer].(next := 0)];
      ghost var cells := timers;
      assert cells == DropCells(old(timers), timer);
      timers := timers[timer := timers[timer].(refs := timers[timer].refs - 1)];
      listed := l + r;
      Uncounted(old(timers), old(listed), cells, timers, listed, timer, first);
    }

    /** Empty the list: the caller takes over every timer with its reference. */
    method GetTimerCtx() returns (remainCtx: seq<nat>)
      requires Valid()
      modifies this
      ensures Valid() && listed == [] && remainCtx == old(listed) && timers.Keys == old(timers.Keys)
      ensures forall t | t in timers :: timers[t].refs == old(timers)[t].refs
    {
      hide Chained, Loose, NoRepeats, Held;
      remainCtx := [];
      var timer := first;
      first := 0;
      ctxCount := 0;
      ghost var i := 0;
      TakingNone(timers, timer, listed);
      while timer != 0
        invariant Taking(old(timers), timers, listed, i, timer) && listed == old(listed) && first == 0 && ctxCount == 0
        invariant remainCtx == listed[..i] && i <= |listed|
        decreases |listed| - i
      {
        TakingNext(old(timers), timers, listed, i, timer);
        var next := timers[timer].next;
        timers := timers[timer := timers[timer].(next := 0)];
        timers := timers[timer := timers[timer].(prev := Nothing)];
        remainCtx := remainCtx + [timer];
        timer := next;
        i := i + 1;
      }
      TakingAll(old(timers), timers, listed, i);
      listed := [];
    }
  }

  /** References that are not the list's are the same as before. */
  ghost predicate SameOthers(timers: Timers, s: seq<nat>, timers': Timers, s': seq<nat>) {
    timers'.Keys == timers.Keys && forall t | t in timers :: timers'[t].refs - Owned(s', t) == timers[t].refs - Owned(s, t)
  }

  lemma NoOthers(timers: Timers, s: seq<nat>)
    ensures SameOthers(timers, s, timers, s)
  {
  }

  lemma Counted(timers: Timers, s: seq<nat>, first: nat, cells: Timers, timers': Timers, s': seq<nat>, t: nat, first': nat)
    requires t in timers && t !in s && s' == [t] + s && (first != 0 ==> first in timers) && cells == AddCells(timers, first, t)
    requires timers[t].refs >= 0 && timers' == cells[t := cells[t].(refs := cells[t].refs + 1)] && Held(timers, s)
    requires Chained(cells, first', s') && Loose(cells, s')
    ensures Chained(timers', first', s') && Loose(timers', s') && Held(timers', s') && SameOthers(timers, s, timers', s')
  {
    RefsOnly(cells, timers', first', s');
    assert forall u :: u in s' <==> u == t || u in s;
  }

  lemma Uncounted(timers: Timers, s: seq<nat>, cells: Timers, timers': Timers, s': seq<nat>, t: nat, first': nat)
    requires t in timers && t in s && (forall u :: u in s' <==> u in s && u != t) && cells.Keys == timers.Keys
    requires (forall u | u in timers :: cells[u].refs == timers[u].refs) && Held(timers, s)
    requires timers' == cells[t := cells[t].(refs := cells[t].refs - 1)]
    requires Chained(cells, first', s') && Loose(cells, s')
    ensures Chained(timers', first', s') && Loose(timers', s') && Held(timers', s') && SameOthers(timers, s, timers', s')
  {
    RefsOnly(cells, timers', first', s');
  }

  lemma RefsOnly(cells: Timers, timers': Timers, first: nat, s: seq<nat>)
    requires Chained(cells, first, s) && Loose(cells, s) && timers'.Keys == cells.Keys
    requires forall u | u in cells :: timers'[u].prev == cells[u].prev && timers'[u].next == cells[u].next
    ensures Chained(timers', first, s) && Loose(timers', s)
  {
    forall i | 0 <= i < |s|
      ensures InPlace(timers', s, i)
    {
      assert InPlace(cells, s, i);
    }
  }

  ghost predicate Untaken(timers: Timers, timers': Timers, s: seq<nat>, j: nat)
    requires j < |s|
  {
    InPlace(timers, s, j) && s[j] in timers' && timers'[s[j]] == timers[s[j]]
  }

  /** The first i timers of s are unlinked, the others are as they were, and timer is the next. */
  ghost predicate Taking(timers: Timers, timers': Timers, s: seq<nat>, i: nat, timer: nat) {
    && i <= |s| && NoRepeats(s) && timer == (if i < |s| then s[i] else 0) && timers'.Keys == timers.Keys && 0 !in timers
    && (forall t | t in timers :: timers'[t].refs == timers[t].refs)
    && (forall j | i <= j < |s| :: Untaken(timers, timers', s, j))
    && (forall t | t in timers && t !in s[i..] :: timers'[t].prev == Nothing)
  }

  lemma TakingNone(timers: Timers, first: nat, s: seq<nat>)
    requires Chained(timers, first, s) && Loose(timers, s) && NoRepeats(s)
    ensures Taking(timers, timers, s, 0, first)
  {
    assert s[0..] == s;
    forall j | 0 <= j < |s|
      ensures Untaken(timers, timers, s, j)
    {
      assert InPlace(timers, s, j);
    }
  }

  lemma TakingNext(timers: Timers, timers': Timers, s: seq<nat>, i: nat, timer: nat)
    requires Taking(timers, timers', s, i, timer) && timer != 0
    ensures i < |s| && timer == s[i] && timer in timers' && s[..i + 1] == s[..i] + [timer]
    ensures var cells := timers'[timer := timers'[timer].(next := 0)];
            Taking(timers, cells[timer := cells[timer].(prev := Nothing)], s, i + 1, timers'[timer].next)
  {
    assert Untaken(timers, timers', s, i);
    var cells := timers'[timer := timers'[timer].(next := 0)];
    var cells' := cells[timer := cells[timer].(prev := Nothing)];
    forall j | i + 1 <= j < |s|
      ensures Untaken(timers, cells', s, j)
    {
      assert s[j] != s[i] && Untaken(timers, timers', s, j);
    }
    assert s[i..] == [s[i]] + s[i + 1..];
    forall t | t in timers && t !in s[i + 1..]
      ensures cells'[t].prev == Nothing
    {
      if t != s[i] { assert t !in s[i..]; }
    }
  }

  lemma TakingAll(timers: Timers, timers': Timers, s: seq<nat>, i: nat)
    requires Taking(timers, timers', s, i, 0)
    ensures s[..i] == s && Chained(timers', 0, []) && Loose(timers', []) && NoRepeats([]) && Held(timers', [])
    ensures timers'.Keys == timers.Keys && forall t | t in timers :: timers'[t].refs == timers[t].refs
  {
    assert i < |s| ==> Untaken(timers, timers', s, i);
    assert s[i..] == [];
  }
}
