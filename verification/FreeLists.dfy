/**
 The free lists of the allocator: circular doubly linked lists threaded through the free
 areas themselves, each with a head of its own.
 */
module FreeLists {
  import opened Sequences

  /** A place in a list: the head of list i, or the node at an address. */
  datatype Link = Head(i: nat) | At(a: nat)

  type Links = map<Link, Link>

  /** The links around list i, head first. */
  function Ring(i: nat, s: seq<nat>): (r: seq<Link>)
    ensures |r| == |s| + 1 && r[0] == Head(i) && forall j | 0 <= j < |s| :: r[j + 1] == At(s[j])
  {
    [Head(i)] + seq(|s|, j requires 0 <= j < |s| => At(s[j]))
  }

  function Following(r: seq<Link>, j: nat): (l: Link)
    requires j < |r|
  {
    if j + 1 == |r| then r[0] else r[j + 1]
  }

  /** next and prev run around the ring in both directions. */
  ghost predicate Around(next: Links, prev: Links, r: seq<Link>) {
    forall j | 0 <= j < |r| ::
      r[j] in next && next[r[j]] == Following(r, j) && Following(r, j) in prev && prev[Following(r, j)] == r[j]
  }

  /** No node is in two lists, or twice in one. */
  ghost predicate Separate(lists: seq<seq<nat>>) {
    && (forall i | 0 <= i < |lists| :: NoRepeats(lists[i]))
    && (forall i, k, a | 0 <= i < |lists| && 0 <= k < |lists| && a in lists[i] && a in lists[k] :: i == k)
  }

  ghost predicate Threaded(next: Links, prev: Links, lists: seq<seq<nat>>) {
    forall i | 0 <= i < |lists| :: Around(next, prev, Ring(i, lists[i]))
  }

  function Without(s: seq<nat>, j: nat): (t: seq<nat>)
    requires j < |s|
    ensures |t| == |s| - 1
  {
    s[..j] + s[j + 1..]
  }

  lemma WithoutMembers(s: seq<nat>, j: nat)
    requires j < |s| && NoRepeats(s)
    ensures NoRepeats(Without(s, j)) && forall a :: a in Without(s, j) <==> a in s && a != s[j]
  {
    var t := Without(s, j);
    forall a | a in s && a != s[j]
      ensures a in t
    {
      var k :| 0 <= k < |s| && s[k] == a;
      assert t[if k < j then k else k - 1] == a;
    }
  }

  /** Links of other rings stay when only links of this one are rewritten. */
  lemma OtherRing(next: Links, prev: Links, next': Links, prev': Links, r: seq<Link>)
    requires Around(next, prev, r)
    requires forall l | l in r && l in next :: l in next' && next'[l] == next[l]
    requires forall l | l in r && l in prev :: l in prev' && prev'[l] == prev[l]
    ensures Around(next', prev', r)
  {
    forall j | 0 <= j < |r|
      ensures r[j] in next' && next'[r[j]] == Following(r, j) && Following(r, j) in prev' && prev'[Following(r, j)] == r[j]
    {
      assert r[j] in r && Following(r, j) in r;
    }
  }

  ghost predicate Distinct(r: seq<Link>) {
    forall j, k | 0 <= j < k < |r| :: r[j] != r[k]
  }

  /** Unlinking position j of a ring joins its neighbours. */
  lemma UnlinkedRing(next: Links, prev: Links, r: seq<Link>, r': seq<Link>, j: nat)
    requires Around(next, prev, r) && Distinct(r) && 0 < j < |r| && r' == r[..j] + r[j + 1..]
    ensures r[j] in next && r[j] in prev && next[r[j]] == Following(r, j) && prev[r[j]] == r[j - 1]
    ensures Around(next[r[j - 1] := Following(r, j)], prev[Following(r, j) := r[j - 1]], r')
  {
    assert Following(r, j - 1) == r[j];
    assert r[j - 1] in next;
    var n, p := Following(r, j), r[j - 1];
    var next', prev' := next[p := n], prev[n := p];
    assert r'[0] == r[0] && forall k | 0 <= k < |r'| :: r'[k] == if k < j then r[k] else r[k + 1];
    forall k | 0 <= k < |r'|
      ensures r'[k] in next' && next'[r'[k]] == Following(r', k)
      ensures Following(r', k) in prev' && prev'[Following(r', k)] == r'[k]
    {
      if k == j - 1 {
        assert Following(r', k) == n;
      } else {
        var k' := if k < j then k else k + 1;
        assert r'[k] == r[k'] && Following(r', k) == Following(r, k');
        assert r[k'] in next && r[k'] != p;
        FollowingDistinct(r, k', j);
      }
    }
  }

  lemma FollowingDistinct(r: seq<Link>, k: nat, j: nat)
    requires Distinct(r) && k < |r| && j < |r| && k != j
    ensures Following(r, k) != Following(r, j)
  {
  }

  /** The ring without the node at position j. */
  lemma RingWithout(i: nat, s: seq<nat>, j: nat)
    requires j < |s|
    ensures Ring(i, Without(s, j)) == Ring(i, s)[..j + 1] + Ring(i, s)[j + 2..]
  {
    var r, t, u := Ring(i, s), Without(s, j), Ring(i, Without(s, j));
    var v := r[..j + 1] + r[j + 2..];
    forall k | 0 <= k < |u|
      ensures u[k] == v[k]
    {
      if k > 0 { assert t[k - 1] == if k - 1 < j then s[k - 1] else s[k]; }
    }
  }

  /** Unlinking the node at position j of a list. */
  lemma Unlinked(next: Links, prev: Links, i: nat, s: seq<nat>, j: nat)
    requires Around(next, prev, Ring(i, s)) && NoRepeats(s) && j < |s|
    ensures At(s[j]) in next && At(s[j]) in prev
    ensures var n, p := next[At(s[j])], prev[At(s[j])];
            Around(next[p := n], prev[n := p], Ring(i, Without(s, j))) && n in Ring(i, s) && p in Ring(i, s)
  {
    hide Around, Ring, Without, Distinct, NoRepeats;
    RingDistinct(i, s);
    RingWithout(i, s, j);
    UnlinkedRing(next, prev, Ring(i, s), Ring(i, Without(s, j)), j + 1);
  }

  lemma RingMembers(i: nat, s: seq<nat>, l: Link)
    ensures l in Ring(i, s) <==> l == Head(i) || (l.At? && l.a in s)
  {
    var r := Ring(i, s);
    if l.At? && l.a in s {
      var j :| 0 <= j < |s| && s[j] == l.a;
      assert r[j + 1] == l;
    }
    if l in r {
      var j :| 0 <= j < |r| && r[j] == l;
      if j > 0 { assert l == At(s[j - 1]); }
    }
  }

  lemma RingDistinct(i: nat, s: seq<nat>)
    requires NoRepeats(s)
    ensures Distinct(Ring(i, s))
  {
  }

  /** Linking a new node before the head puts it last. */
  lemma Appended(next: Links, prev: Links, i: nat, s: seq<nat>, a: nat)
    requires Around(next, prev, Ring(i, s)) && NoRepeats(s) && a !in s
    ensures Head(i) in prev && prev[Head(i)] in Ring(i, s)
    ensures var last := prev[Head(i)];
            Around(next[At(a) := Head(i)][last := At(a)], prev[Head(i) := At(a)][At(a) := last], Ring(i, s + [a]))
  {
    var r, r' := Ring(i, s), Ring(i, s + [a]);
    var n := |s|;
    assert Following(r, n) == r[0] && prev[r[0]] == r[n];
    var last := prev[Head(i)];
    assert forall k | 0 <= k <= n :: r'[k] == r[k];
    assert r'[n + 1] == At(a);
    RingDistinct(i, s);
    assert forall k | 0 <= k <= n :: r[k] != At(a);
    var next', prev' := next[At(a) := Head(i)][last := At(a)], prev[Head(i) := At(a)][At(a) := last];
    hide Ring;
    forall k | 0 <= k < |r'|
      ensures r'[k] in next' && next'[r'[k]] == Following(r', k)
      ensures Following(r', k) in prev' && prev'[Following(r', k)] == r'[k]
    {
      if k < n {
        assert next[r[k]] == r[k + 1] && prev[r[k + 1]] == r[k] && Following(r', k) == r[k + 1];
        assert r[k] != r[n] && r[k + 1] != r[0];
      } else if k == n {
        assert r'[k] == last && Following(r', k) == At(a);
      } else {
        assert r'[k] == At(a) && Following(r', k) == Head(i);
      }
    }
  }

  lemma SeparateAppend(lists: seq<seq<nat>>, i: nat, a: nat)
    requires Separate(lists) && i < |lists| && forall k | 0 <= k < |lists| :: a !in lists[k]
    ensures Separate(lists[i := lists[i] + [a]])
  {
    assert forall x | x in lists[i] + [a] :: x in lists[i] || x == a;
  }

  /** Appending to one list leaves the links of the others. */
  lemma ThreadedAppend(next: Links, prev: Links, lists: seq<seq<nat>>, i: nat, a: nat)
    requires Separate(lists) && Threaded(next, prev, lists) && i < |lists| && forall k | 0 <= k < |lists| :: a !in lists[k]
    ensures Head(i) in prev && prev[Head(i)] in next && Separate(lists[i := lists[i] + [a]])
    ensures var last := prev[Head(i)];
            Threaded(next[At(a) := Head(i)][last := At(a)], prev[Head(i) := At(a)][At(a) := last], lists[i := lists[i] + [a]])
  {
    hide Around, Ring;
    SeparateAppend(lists, i, a);
    assert Around(next, prev, Ring(i, lists[i]));
    Appended(next, prev, i, lists[i], a);
    var last := prev[Head(i)];
    RingIn(next, prev, Ring(i, lists[i]), last);
    var next', prev' := next[At(a) := Head(i)][last := At(a)], prev[Head(i) := At(a)][At(a) := last];
    forall k | 0 <= k < |lists| && k != i
      ensures Around(next', prev', Ring(k, lists[k]))
    {
      assert Around(next, prev, Ring(k, lists[k]));
      OtherLists(lists, i, k);
      RingMembers(k, lists[k], At(a));
      RingMembers(i, lists[i], Head(i));
      OtherRing(next, prev, next', prev', Ring(k, lists[k]));
    }
  }

  /** A place of one of the lists. */
  ghost predicate IsPlace(lists: seq<seq<nat>>, l: Link) {
    match l
    case Head(i) => i < |lists|
    case At(a) => exists i | 0 <= i < |lists| :: a in lists[i]
  }

  /** There are links at the places of the lists only. */
  ghost predicate LinksOnly(next: Links, lists: seq<seq<nat>>) {
    forall l | l in next :: IsPlace(lists, l)
  }

  lemma OnlyAppended(next: Links, next': Links, lists: seq<seq<nat>>, i: nat, a: nat)
    requires LinksOnly(next, lists) && i < |lists| && next'.Keys == next.Keys + {At(a)}
    ensures LinksOnly(next', lists[i := lists[i] + [a]])
  {
    var lists' := lists[i := lists[i] + [a]];
    forall l | l in next'
      ensures IsPlace(lists', l)
    {
      if l == At(a) {
        assert a in lists'[i];
      } else if l.At? {
        var k :| 0 <= k < |lists| && l.a in lists[k];
        assert l.a in lists'[k];
      }
    }
  }

  lemma OnlyRemoved(next: Links, next': Links, lists: seq<seq<nat>>, i: nat, j: nat)
    requires LinksOnly(next, lists) && i < |lists| && j < |lists[i]| && NoRepeats(lists[i]) && next'.Keys <= next.Keys - {At(lists[i][j])}
    ensures LinksOnly(next', lists[i := Without(lists[i], j)])
  {
    var lists' := lists[i := Without(lists[i], j)];
    WithoutMembers(lists[i], j);
    forall l | l in next'
      ensures IsPlace(lists', l)
    {
      if l.At? {
        var k :| 0 <= k < |lists| && l.a in lists[k];
        assert l.a in lists'[k];
      }
    }
  }

  /** The rings without list i's node at position j, whose own links are no longer needed. */
  lemma ThreadedRemove(next: Links, prev: Links, lists: seq<seq<nat>>, i: nat, j: nat)
    requires Separate(lists) && Threaded(next, prev, lists) && i < |lists| && j < |lists[i]|
    ensures var a := At(lists[i][j]); a in next && a in prev && next[a] in prev && prev[a] in next
    ensures var a := At(lists[i][j]);
            var n, p := next[a], prev[a];
            Threaded(next[p := n] - {a}, prev[n := p] - {a}, lists[i := Without(lists[i], j)])
    ensures Separate(lists[i := Without(lists[i], j)])
  {
    hide Around, Ring;
    var s, lists', a := lists[i], lists[i := Without(lists[i], j)], At(lists[i][j]);
    assert Around(next, prev, Ring(i, s));
    Unlinked(next, prev, i, s, j);
    WithoutMembers(s, j);
    var n, p := next[a], prev[a];
    RingIn(next, prev, Ring(i, s), n);
    RingIn(next, prev, Ring(i, s), p);
    forall k | 0 <= k < |lists|
      ensures Around(next[p := n] - {a}, prev[n := p] - {a}, Ring(k, lists'[k]))
    {
      assert Around(next, prev, Ring(k, lists[k]));
      RingMembers(k, lists'[k], a);
      if k != i {
        OtherLists(lists, i, k);
        assert s[j] in s;
        OtherRing(next, prev, next[p := n], prev[n := p], Ring(k, lists[k]));
      }
      OtherRing(next[p := n], prev[n := p], next[p := n] - {a}, prev[n := p] - {a}, Ring(k, lists'[k]));
    }
  }

  lemma RingIn(next: Links, prev: Links, r: seq<Link>, l: Link)
    requires Around(next, prev, r) && l in r
    ensures l in next && l in prev
  {
    var j :| 0 <= j < |r| && r[j] == l;
    if j == 0 {
      assert Following(r, |r| - 1) == l;
    } else {
      assert Following(r, j - 1) == l;
    }
  }

  class FreeListArray {
    var next: Links
    var prev: Links
    ghost var lists: seq<seq<nat>>

    ghost predicate Valid()
      reads this
    {
      Separate(lists) && Threaded(next, prev, lists) && LinksOnly(next, lists) && LinksOnly(prev, lists)
    }

    constructor (n: nat)
      ensures Valid() && |lists| == n && forall i | 0 <= i < n :: lists[i] == []
    {
      next := map i: nat | 0 <= i < n :: Head(i) := Head(i);
      prev := map i: nat | 0 <= i < n :: Head(i) := Head(i);
      lists := seq(n, _ => []);
    }

    /** Take the node at a out of the list it is in; its own links are no longer the lists'. */
    method RemoveSelf(a: nat, ghost i: nat, ghost j: nat)
      requires Valid() && i < |lists| && j < |lists[i]| && lists[i][j] == a
      modifies this
      ensures Valid() && lists == old(lists)[i := Without(old(lists)[i], j)]
    {
      ListNoRepeats(lists, i);
      hide Separate, Threaded, LinksOnly, Without, NoRepeats;
      ThreadedRemove(next, prev, lists, i, j);
      var n, p := next[At(a)], prev[At(a)];
      prev := prev[n := p];
      next := next[p := n];
      next, prev := next - {At(a)}, prev - {At(a)};
      OnlyRemoved(old(next), next, lists, i, j);
      OnlyRemoved(old(prev), prev, lists, i, j);
      lists := lists[i := Without(lists[i], j)];
    }

    /** Put the node at a at the end of list i. */
    method Append(i: nat, a: nat)
      requires Valid() && i < |lists| && forall k | 0 <= k < |lists| :: a !in lists[k]
      modifies this
      ensures Valid() && lists == old(lists)[i := old(lists)[i] + [a]]
    {
      hide Separate, Threaded, LinksOnly;
      ThreadedAppend(next, prev, lists, i, a);
      var last := prev[Head(i)];
      prev := prev[Head(i) := At(a)];
      next := next[At(a) := Head(i)];
      prev := prev[At(a) := last];
      next := next[last := At(a)];
      OnlyAppended(old(next), next, lists, i, a);
      OnlyAppended(old(prev), prev, lists, i, a);
      lists := lists[i := lists[i] + [a]];
    }

    /** The link after position j of list i (position 0 is the head). */
    method Step(l: Link, ghost i: nat, ghost j: nat) returns (n: Link)
      requires Valid() && i < |lists| && j <= |lists[i]| && l == Ring(i, lists[i])[j]
      ensures n == if j == |lists[i]| then Head(i) else At(lists[i][j])
    {
      assert Around(next, prev, Ring(i, lists[i]));
      n := next[l];
    }
  }

  /** Rings of different lists share no link. */
  lemma OtherLists(lists: seq<seq<nat>>, i: nat, k: nat)
    requires Separate(lists) && i < |lists| && k < |lists| && i != k
    ensures forall l | l in Ring(k, lists[k]) :: l !in Ring(i, lists[i])
  {
    forall l | l in Ring(k, lists[k])
      ensures l !in Ring(i, lists[i])
    {
      RingMembers(k, lists[k], l);
      RingMembers(i, lists[i], l);
    }
  }

  lemma ListNoRepeats(lists: seq<seq<nat>>, i: nat)
    requires Separate(lists) && i < |lists|
    ensures NoRepeats(lists[i])
  {
  }
}
