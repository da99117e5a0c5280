/**
 Putting a message together from fragments received one after the other.
 */
module Splice {
  import opened LittleEndian

  const HEADER: nat := 24
  const MAX_TOTAL_LENGTH: nat := 0x8000_0000
  const MEM_MAX: nat := 0x7FFF_FFFF

  /** What one receive call brings: an error, a plain message, or a fragment with its header in front. */
  datatype Reception = Failed(code: int) | Raw(data: seq<nat>) | Fragment(bytes: seq<nat>)

  datatype Outcome = Done(data: seq<nat>) | ReceiveFailed(code: int) | InvalidMessage | Broken | OutOfInput

  // ----- one fragment

  function TotalLength(bytes: seq<nat>): (n: nat)
    requires |bytes| >= HEADER
  {
    FromLittle(bytes[16..20])
  }

  function Offset(bytes: seq<nat>): (n: nat)
    requires |bytes| >= HEADER
  {
    FromLittle(bytes[20..24])
  }

  /** Room in the accumulator allows a checked copy of n bytes. */
  predicate CopyFits(room: nat, n: nat) {
    0 < room <= MEM_MAX && n <= room
  }

  /**
   The accumulator after a fragment, or why it is refused: a header is missing, the whole is too
   long or not as long as the first fragment said, or the bytes do not fit.
   */
  datatype Step = Next(acc: seq<nat>) | Complete(acc: seq<nat>) | Refused(outcome: Outcome)

  function Resized(acc: seq<nat>, n: nat): (r: seq<nat>)
    ensures |r| == n
  {
    if |acc| >= n then acc[..n] else acc + seq(n - |acc|, _ => 0)
  }

  function Take(acc: seq<nat>, bytes: seq<nat>): (r: Step)
    ensures r.Refused? ==> r.outcome == Broken || r.outcome == InvalidMessage
  {
    if |bytes| < HEADER then Refused(Broken)
    else
      var payload, total, offset := bytes[HEADER..], TotalLength(bytes), Offset(bytes);
      if total >= MAX_TOTAL_LENGTH then Refused(InvalidMessage)
      else
        var acc' := if offset == 0 then Resized(acc, total) else acc;
        if total != |acc'| % WORD32 then Refused(InvalidMessage)
        else if offset > |acc'| then Refused(InvalidMessage)
        else if !CopyFits(|acc'| - offset, |payload|) then Refused(InvalidMessage)
        else
          var acc'' := acc'[..offset] + payload + acc'[offset + |payload|..];
          if offset + |payload| == total then Complete(acc'') else Next(acc'')
  }

  // ----- the whole

  function Splices(acc: seq<nat>, input: seq<Reception>): (r: Outcome)
    decreases |input|
  {
    if input == [] then OutOfInput
    else match input[0]
         case Failed(code) => ReceiveFailed(code)
         case Raw(_) => Broken
         case Fragment(bytes) =>
           match Take(acc, bytes)
           case Complete(data) => Done(data)
           case Refused(o) => o
           case Next(acc') => Splices(acc', input[1..])
  }

  /** How many receptions it takes to reach the outcome. */
  function Used(acc: seq<nat>, input: seq<Reception>): (n: nat)
    ensures n <= |input|
    decreases |input|
  {
    if input == [] then 0
    else if !input[0].Fragment? || !Take(acc, input[0].bytes).Next? then 1
    else 1 + Used(Take(acc, input[0].bytes).acc, input[1..])
  }

  function Spliced(input: seq<Reception>): (r: Outcome) {
    if input != [] && input[0].Raw? then Done(input[0].data) else Splices([], input)
  }

  predicate IsFragment(r: Reception) {
    r.Fragment? && |r.bytes| >= HEADER
  }

  /** The length of the whole stated by the fragment before reception i; nothing is stated before the first. */
  function Stated(input: seq<Reception>, i: nat): (n: nat)
    requires i <= |input|
  {
    if i > 0 && IsFragment(input[i - 1]) then TotalLength(input[i - 1].bytes) else 0
  }

  /**
   Fragment i with its header is refused: the whole is 2 GiB or longer, or not as long as the
   fragment before said unless this is a first one, or the bytes start or end behind its end.
   */
  predicate Invalid(input: seq<Reception>, i: nat)
    requires i < |input| && IsFragment(input[i])
  {
    var bytes := input[i].bytes;
    || TotalLength(bytes) >= 0x8000_0000
    || (Offset(bytes) != 0 && TotalLength(bytes) != Stated(input, i))
    || Offset(bytes) >= TotalLength(bytes)
    || Offset(bytes) + |bytes| - 24 > TotalLength(bytes)
  }

  /** The fragment's bytes reach the end of the whole. */
  predicate Ends(bytes: seq<nat>)
    requires |bytes| >= HEADER
  {
    Offset(bytes) + |bytes| - 24 == TotalLength(bytes)
  }

  /** After reception i the message is neither complete nor refused. */
  predicate GoesOn(input: seq<Reception>, i: nat)
    requires i < |input|
  {
    IsFragment(input[i]) && !Invalid(input, i) && !Ends(input[i].bytes)
  }

  /**
   Receive until the message is complete or something is wrong: the last reception used decides,
   and all before it were fragments that left the message incomplete.
   */
  method SyncSpliceMessage(input: seq<Reception>) returns (r: Outcome, used: nat)
    ensures r == Spliced(input) && used == Used([], input) && (used == 0 <==> input == [])
    ensures forall i | 0 <= i < used - 1 :: GoesOn(input, i)
    ensures input != [] && input[0].Raw? ==> r == Done(input[0].data) && used == 1
    ensures r == OutOfInput <==> used == |input| && (input == [] || GoesOn(input, used - 1))
    ensures used > 0 ==>
              var last := input[used - 1];
              && (r.ReceiveFailed? <==> last.Failed?) && (last.Failed? ==> r == ReceiveFailed(last.code))
              && (r == Broken <==> if last.Raw? then used > 1 else last.Fragment? && |last.bytes| < 24)
              && (r == InvalidMessage <==> IsFragment(last) && Invalid(input, used - 1))
              && (r.Done? <==> if last.Raw? then used == 1 else IsFragment(last) && !Invalid(input, used - 1) && Ends(last.bytes))
              && (r.Done? && last.Fragment? ==>
                    && |r.data| == TotalLength(last.bytes)
                    && forall x: nat | x < |r.data| :: r.data[x] == ByteAt(input, used, x))
  {
    hide Take, TotalLength, Offset, ByteAt;
    used := 0;
    if input == [] {
      return OutOfInput, 0;
    }
    var ctx := input[0];
    used := 1;
    match ctx {
      case Failed(code) =>
        return ReceiveFailed(code), used;
      case Raw(data) =>
        return Done(data), used;
      case Fragment(_) =>
    }
    var acc: seq<nat> := [];
    while true
      invariant 0 < used <= |input| && ctx == input[used - 1] && ctx.Fragment?
      invariant Splices([], input) == Splices(acc, input[used - 1..])
      invariant Used([], input) == used - 1 + Used(acc, input[used - 1..])
      invariant |acc| == Stated(input, used - 1) < MAX_TOTAL_LENGTH && forall i | 0 <= i < used - 1 :: GoesOn(input, i)
      decreases |input| - used
    {
      assert input[used - 1..][1..] == input[used..];
      TakeExactly(input, used - 1, acc);
      match Take(acc, ctx.bytes) {
        case Complete(data) =>
          SplicedBytes(input);
          return Done(data), used;
        case Refused(o) =>
          return o, used;
        case Next(acc') =>
          acc := acc';
      }
      if used == |input| {
        return OutOfInput, used;
      }
      ctx := input[used];
      used := used + 1;
      match ctx {
        case Failed(code) =>
          return ReceiveFailed(code), used;
        case Raw(_) =>
          return Broken, used;
        case Fragment(_) =>
      }
    }
  }

  /** What a fragment does to an accumulator as long as the fragment before said. */
  lemma TakeExactly(input: seq<Reception>, i: nat, acc: seq<nat>)
    requires i < |input| && input[i].Fragment? && |acc| == Stated(input, i) < MAX_TOTAL_LENGTH
    ensures var r, bytes := Take(acc, input[i].bytes), input[i].bytes;
            && (r == Refused(Broken) <==> |bytes| < 24)
            && (r == Refused(InvalidMessage) <==> IsFragment(input[i]) && Invalid(input, i))
            && (r.Complete? <==> IsFragment(input[i]) && !Invalid(input, i) && Ends(bytes))
            && (r.Next? <==> GoesOn(input, i))
            && (r.Next? ==> |r.acc| == TotalLength(bytes) < MAX_TOTAL_LENGTH)
  {
    hide FromLittle;
  }

  // ----- whatever arrives

  /** Exactly the receptions used decide: the outcome is theirs, and fewer leave it open. */
  lemma {:induction false} UsedExactly(acc: seq<nat>, input: seq<Reception>)
    ensures Splices(acc, input[..Used(acc, input)]) == Splices(acc, input)
    ensures forall k | 0 <= k < Used(acc, input) :: Splices(acc, input[..k]) == OutOfInput
    decreases |input|
  {
    hide Take;
    var u := Used(acc, input);
    if u > 1 {
      var acc', rest := Take(acc, input[0].bytes).acc, input[1..];
      UsedExactly(acc', rest);
      assert input[..u][1..] == rest[..u - 1];
      forall k | 0 < k < u
        ensures Splices(acc, input[..k]) == OutOfInput
      {
        assert input[..k][1..] == rest[..k - 1];
      }
    }
  }

  /** The fragment writes position x. */
  predicate Writes(bytes: seq<nat>, x: nat)
    requires |bytes| >= HEADER
  {
    Offset(bytes) <= x < Offset(bytes) + |bytes| - HEADER
  }

  /** The byte a fragment has for a position it writes. */
  function PayloadAt(bytes: seq<nat>, x: nat): (v: nat)
    requires |bytes| >= HEADER && Writes(bytes, x)
  {
    bytes[HEADER + x - Offset(bytes)]
  }

  /** A fragment that is taken writes its own range, fills what it makes longer with 0, and changes no other byte. */
  lemma TakenBytes(acc: seq<nat>, bytes: seq<nat>)
    requires !Take(acc, bytes).Refused? && |acc| < MAX_TOTAL_LENGTH
    ensures |bytes| >= HEADER && |Take(acc, bytes).acc| == TotalLength(bytes) < MAX_TOTAL_LENGTH
    ensures Offset(bytes) + |bytes| - HEADER <= TotalLength(bytes)
    ensures Take(acc, bytes).Complete? <==> Offset(bytes) + |bytes| - HEADER == TotalLength(bytes)
    ensures Offset(bytes) != 0 ==> TotalLength(bytes) == |acc|
    ensures forall x: nat | x < TotalLength(bytes) ::
              Take(acc, bytes).acc[x] == if Writes(bytes, x) then PayloadAt(bytes, x) else if x < |acc| then acc[x] else 0
  {
    hide FromLittle;
  }

  /** The state after the first k receptions. */
  ghost function After(input: seq<Reception>, k: nat): (r: Step)
    requires k <= |input|
  {
    if k == 0 then Next([])
    else match After(input, k - 1)
         case Next(acc) => if input[k - 1].Fragment? then Take(acc, input[k - 1].bytes) else Refused(Broken)
         case r => r
  }

  /** The first k receptions are fragments, taken one after the other; the last may complete the message. */
  ghost predicate Taking(input: seq<Reception>, k: nat) {
    k <= |input| && !After(input, k).Refused? && forall i | 0 <= i < k :: After(input, i).Next?
  }

  lemma TakingBefore(input: seq<Reception>, k: nat)
    requires Taking(input, k) && k > 0
    ensures Taking(input, k - 1) && After(input, k - 1).Next? && input[k - 1].Fragment?
    ensures After(input, k) == Take(After(input, k - 1).acc, input[k - 1].bytes) && !After(input, k).Refused?
  {
    hide Take;
    assert After(input, k - 1).Next?;
  }

  /** A message put together from fragments is complete with the last fragment received, and not before. */
  lemma {:induction false} CompleteAtLast(input: seq<Reception>, k: nat, acc: seq<nat>)
    requires Taking(input, k) && After(input, k) == Next(acc) && Splices(acc, input[k..]).Done?
    ensures var u := k + Used(acc, input[k..]);
            && k < u && Taking(input, u) && After(input, u) == Complete(Splices(acc, input[k..]).data)
    decreases |input| - k
  {
    hide Take;
    var rest := input[k..];
    assert rest[0] == input[k] && rest[1..] == input[k + 1..];
    var s := Take(acc, input[k].bytes);
    assert After(input, k + 1) == s && !s.Refused?;
    assert Taking(input, k + 1);
    if s.Next? {
      CompleteAtLast(input, k + 1, s.acc);
      assert Used(acc, rest) == 1 + Used(s.acc, input[k + 1..]);
    } else {
      assert Used(acc, rest) == 1;
    }
  }

  /** The last fragment among the first k whose byte at x is still there: later ones neither write x nor end before it. */
  function Writer(input: seq<Reception>, k: nat, x: nat): (w: int)
    requires k <= |input|
    ensures -1 <= w < k && (w >= 0 ==> IsFragment(input[w]) && Writes(input[w].bytes, x))
  {
    if k == 0 || !IsFragment(input[k - 1]) then -1
    else if Writes(input[k - 1].bytes, x) then k - 1
    else if x >= TotalLength(input[k - 1].bytes) then -1
    else Writer(input, k - 1, x)
  }

  /** Fragment i writes x, and no later one up to k writes it again or ends before it. */
  ghost predicate LastAt(input: seq<Reception>, k: nat, x: nat, i: nat)
    requires k <= |input|
  {
    && i < k && IsFragment(input[i]) && Writes(input[i].bytes, x)
    && forall j | i < j < k :: IsFragment(input[j]) && !Writes(input[j].bytes, x) && x < TotalLength(input[j].bytes)
  }

  /** The writer of a position is the fragment that wrote it last, and there is none exactly if no byte is left. */
  lemma {:induction false} WriterIs(input: seq<Reception>, k: nat, x: nat)
    requires k <= |input|
    ensures forall i: nat :: LastAt(input, k, x, i) <==> i == Writer(input, k, x)
  {
    hide Writes, TotalLength;
    if k > 0 {
      WriterIs(input, k - 1, x);
      var last := input[k - 1];
      forall i: nat
        ensures LastAt(input, k, x, i) <==> i == Writer(input, k, x)
      {
        assert LastAt(input, k - 1, x, i) <==> i == Writer(input, k - 1, x);
        if i < k - 1 && IsFragment(last) && !Writes(last.bytes, x) && x < TotalLength(last.bytes) {
          assert LastAt(input, k, x, i) <==> LastAt(input, k - 1, x, i);
        }
      }
    }
  }

  /** What the accumulator should hold at x: the last byte written there, or 0 if none is left. */
  function ByteAt(input: seq<Reception>, k: nat, x: nat): (v: nat)
    requires k <= |input|
  {
    var w := Writer(input, k, x);
    if w < 0 then 0 else PayloadAt(input[w].bytes, x)
  }

  lemma {:induction false} AfterBytes(input: seq<Reception>, k: nat)
    requires Taking(input, k)
    ensures k == 0 ==> After(input, k).acc == []
    ensures k > 0 ==> IsFragment(input[k - 1]) && |After(input, k).acc| == TotalLength(input[k - 1].bytes) < MAX_TOTAL_LENGTH
    ensures forall x: nat | x < |After(input, k).acc| :: After(input, k).acc[x] == ByteAt(input, k, x)
  {
    if k > 0 {
      hide Take, TotalLength, Offset, After, Taking, ByteAt, Writes;
      TakingBefore(input, k);
      var acc, bytes := After(input, k - 1).acc, input[k - 1].bytes;
      AfterBytes(input, k - 1);
      TakenBytes(acc, bytes);
      forall x: nat | x < TotalLength(bytes)
        ensures Take(acc, bytes).acc[x] == ByteAt(input, k, x)
      {
        ByteNext(input, k, x);
        if !Writes(bytes, x) && x >= |acc| { NoWriterBeyond(input, k - 1, x); }
      }
    } else {
      hide Take;
    }
  }

  lemma ByteNext(input: seq<Reception>, k: nat, x: nat)
    requires 0 < k <= |input| && IsFragment(input[k - 1]) && x < TotalLength(input[k - 1].bytes)
    ensures ByteAt(input, k, x) == if Writes(input[k - 1].bytes, x) then PayloadAt(input[k - 1].bytes, x) else ByteAt(input, k - 1, x)
  {
    hide TotalLength, Offset;
  }

  /** Behind the end of what has been received there is nothing. */
  lemma NoWriterBeyond(input: seq<Reception>, k: nat, x: nat)
    requires Taking(input, k) && (k > 0 ==> IsFragment(input[k - 1]) && x >= TotalLength(input[k - 1].bytes))
    ensures ByteAt(input, k, x) == 0
  {
    hide Take, TotalLength, Offset;
    if k > 0 {
      TakingBefore(input, k);
      AfterBytes(input, k - 1);
      TakenBytes(After(input, k - 1).acc, input[k - 1].bytes);
    }
  }

  /**
   Whatever arrives, a message put together from fragments has the length its last fragment
   states, and each of its bytes is the last one written there by a fragment, or 0 if none is left.
   */
  lemma SplicedBytes(input: seq<Reception>)
    requires Splices([], input).Done?
    ensures var u, data := Used([], input), Splices([], input).data;
            && 0 < u && (forall i | 0 <= i < u :: IsFragment(input[i]))
            && |data| == TotalLength(input[u - 1].bytes) < MAX_TOTAL_LENGTH
            && forall x: nat | x < |data| :: data[x] == ByteAt(input, u, x)
  {
    hide TotalLength, Take, Taking, Splices, Used;
    assert input[0..] == input;
    assert Taking(input, 0) by { NothingTaken(input); }
    CompleteAtLast(input, 0, []);
    var u := Used([], input);
    AfterBytes(input, u);
    AllFragments(input, u);
  }

  lemma NothingTaken(input: seq<Reception>)
    ensures Taking(input, 0)
  {
  }

  lemma {:induction false} AllFragments(input: seq<Reception>, k: nat)
    requires Taking(input, k)
    ensures forall i | 0 <= i < k :: IsFragment(input[i])
  {
    hide Take, After, Taking;
    if k > 0 {
      TakingBefore(input, k);
      AllFragments(input, k - 1);
      AfterBytes(input, k);
    }
  }

  // ----- when a message is the one that was sent

  /** The first u fragments are cut from message m: any order, any gaps. */
  ghost predicate CutFrom(m: seq<nat>, input: seq<Reception>, u: nat)
    requires u <= |input|
  {
    forall i | 0 <= i < u :: IsFragment(input[i]) && TotalLength(input[i].bytes) == |m|
                          && (forall x: nat | Writes(input[i].bytes, x) :: x < |m| && PayloadAt(input[i].bytes, x) == m[x])
  }

  /** The ranges of the first u fragments cover all of n bytes. */
  ghost predicate Covered(input: seq<Reception>, u: nat, n: nat)
    requires u <= |input|
  {
    forall x: nat | x < n :: Written(input, u, x)
  }

  ghost predicate Written(input: seq<Reception>, u: nat, x: nat)
    requires u <= |input|
  {
    exists i | 0 <= i < u :: IsFragment(input[i]) && Writes(input[i].bytes, x)
  }

  /** Among fragments of one message a byte that was written is not lost again. */
  lemma {:induction false} WriterExactly(m: seq<nat>, input: seq<Reception>, u: nat, x: nat)
    requires u <= |input| && CutFrom(m, input, u) && x < |m|
    ensures Writer(input, u, x) >= 0 <==> Written(input, u, x)
    ensures Writer(input, u, x) >= 0 ==> ByteAt(input, u, x) == m[x]
  {
    hide TotalLength, Offset;
    if u > 0 {
      WriterExactly(m, input, u - 1, x);
      assert IsFragment(input[u - 1]);
      if Written(input, u - 1, x) {
        var i :| 0 <= i < u - 1 && IsFragment(input[i]) && Writes(input[i].bytes, x);
        assert Written(input, u, x);
      }
    }
  }

  /** A message comes back exactly if it has 0 wherever no fragment of it was received. */
  lemma SentExactly(m: seq<nat>, input: seq<Reception>)
    requires Splices([], input).Done? && CutFrom(m, input, Used([], input))
    ensures |Splices([], input).data| == |m|
    ensures Splices([], input).data == m <==> forall x: nat | x < |m| && !Written(input, Used([], input), x) :: m[x] == 0
  {
    hide Splices, Used, ByteAt, Writer, Written, TotalLength;
    SplicedBytes(input);
    var u, data := Used([], input), Splices([], input).data;
    assert IsFragment(input[u - 1]);
    forall x: nat | x < |m|
      ensures data[x] == if Written(input, u, x) then m[x] else 0
    {
      WriterExactly(m, input, u, x);
      if !Written(input, u, x) { Unwritten(input, u, x); }
    }
  }

  lemma Unwritten(input: seq<Reception>, u: nat, x: nat)
    requires u <= |input| && Writer(input, u, x) < 0
    ensures ByteAt(input, u, x) == 0
  {
  }

  /**
   The result is the message that was sent, whichever message the fragments received belong to,
   exactly if their ranges cover it.
   */
  lemma WholeExactly(m: seq<nat>, input: seq<Reception>)
    requires Splices([], input).Done? && CutFrom(m, input, Used([], input))
    ensures (forall m' | CutFrom(m', input, Used([], input)) :: Splices([], input).data == m') <==> Covered(input, Used([], input), |m|)
  {
    hide Splices, Used, Written, TotalLength, Offset;
    SplicedBytes(input);
    var u, data := Used([], input), Splices([], input).data;
    if Covered(input, u, |m|) {
      forall m' | CutFrom(m', input, u)
        ensures data == m'
      {
        assert IsFragment(input[u - 1]);
        SentExactly(m', input);
      }
    } else {
      var x: nat :| x < |m| && !Written(input, u, x);
      var m' := m[x := if m[x] == 0 then 1 else 0];
      OtherMessage(m, m', input, u, x);
      assert m' != m && CutFrom(m', input, u);
    }
  }

  /** What no fragment holds could have been anything. */
  lemma OtherMessage(m: seq<nat>, m': seq<nat>, input: seq<Reception>, u: nat, x: nat)
    requires u <= |input| && CutFrom(m, input, u) && x < |m| && !Written(input, u, x) && |m'| == |m| && m' == m[x := m'[x]]
    ensures CutFrom(m', input, u)
  {
    hide TotalLength, Offset;
  }

  /** A gap goes unnoticed: bytes 0 and 2 of three arrive, and the message counts as complete with 0 between them. */
  lemma GapUnnoticed(id: seq<nat>)
    requires |id| == 16
    ensures Spliced([FragmentOf(id, 3, 0, [7]), FragmentOf(id, 3, 2, [9])]) == Done([7, 0, 9])
  {
    hide FragmentOf, FromLittle;
    var a, b := FragmentOf(id, 3, 0, [7]), FragmentOf(id, 3, 2, [9]);
    Fields(id, 3, 0, [7]);
    Fields(id, 3, 2, [9]);
    assert Take([], a.bytes) == Next([7, 0, 0]);
    assert Take([7, 0, 0], b.bytes) == Complete([7, 0, 9]);
    assert Splices([7, 0, 0], [b]) == Done([7, 0, 9]);
    assert [a, b][1..] == [b];
    assert Splices([], [a, b]) == Splices([7, 0, 0], [b]);
  }

  // ----- fragments of one message, in order

  /** The fragment with this piece at this offset of a message of total bytes. */
  function FragmentOf(id: seq<nat>, total: nat, offset: nat, piece: seq<nat>): (r: Reception)
    ensures r.Fragment?
  {
    Fragment(id + Little(total, 4) + Little(offset, 4) + piece)
  }

  function FragmentsFrom(id: seq<nat>, total: nat, offset: nat, pieces: seq<seq<nat>>): (r: seq<Reception>)
    decreases |pieces|
  {
    if pieces == [] then []
    else [FragmentOf(id, total, offset, pieces[0])] + FragmentsFrom(id, total, offset + |pieces[0]|, pieces[1..])
  }

  function Joined(pieces: seq<seq<nat>>): (m: seq<nat>)
    decreases |pieces|
  {
    if pieces == [] then [] else pieces[0] + Joined(pieces[1..])
  }

  ghost predicate Pieces(pieces: seq<seq<nat>>) {
    forall i | 0 <= i < |pieces| :: pieces[i] != []
  }

  lemma Fields(id: seq<nat>, total: nat, offset: nat, piece: seq<nat>)
    requires |id| == 16 && total < WORD32 && offset < WORD32
    ensures var bytes := FragmentOf(id, total, offset, piece).bytes;
            && |bytes| == HEADER + |piece| && TotalLength(bytes) == total && Offset(bytes) == offset && bytes[HEADER..] == piece
  {
    hide Little, FromLittle, Capacity;
    var bytes := FragmentOf(id, total, offset, piece).bytes;
    assert bytes[16..20] == Little(total, 4) && bytes[20..24] == Little(offset, 4) && bytes[HEADER..] == piece;
    Capacities();
    LittleRoundTrip(total, 4);
    LittleRoundTrip(offset, 4);
  }

  lemma {:induction false} PiecesLonger(pieces: seq<seq<nat>>)
    requires Pieces(pieces) && pieces != []
    ensures |Joined(pieces)| > 0
  {
  }

  /** One fragment in its turn extends what the accumulator holds. */
  lemma OneTaken(id: seq<nat>, done: seq<nat>, p: seq<nat>, tail: seq<nat>, acc: seq<nat>)
    requires |id| == 16 && p != [] && |done + p + tail| < MAX_TOTAL_LENGTH
    requires done == [] || (|acc| == |done + p + tail| && acc[..|done|] == done)
    ensures var s := Take(acc, FragmentOf(id, |done + p + tail|, |done|, p).bytes);
            if tail == [] then s == Complete(done + p)
            else s.Next? && |s.acc| == |done + p + tail| && s.acc[..|done + p|] == done + p
  {
    hide FragmentOf, Little, FromLittle;
    var total, offset := |done + p + tail|, |done|;
    Fields(id, total, offset, p);
    var acc' := if offset == 0 then Resized(acc, total) else acc;
    Filled(acc', done, p, tail);
  }

  lemma Filled(acc: seq<nat>, done: seq<nat>, p: seq<nat>, tail: seq<nat>)
    requires |acc| == |done + p + tail| && acc[..|done|] == done
    ensures var w := acc[..|done|] + p + acc[|done| + |p|..];
            |w| == |acc| && w[..|done + p|] == done + p && (tail == [] ==> w == done + p)
  {
  }

  lemma FragmentsStep(id: seq<nat>, total: nat, offset: nat, pieces: seq<seq<nat>>, more: seq<Reception>)
    requires pieces != []
    ensures var input := FragmentsFrom(id, total, offset, pieces) + more;
            && input != [] && input[0] == FragmentOf(id, total, offset, pieces[0])
            && input[1..] == FragmentsFrom(id, total, offset + |pieces[0]|, pieces[1..]) + more
  {
  }

  /** The rest of the fragments completes an accumulator that holds the message up to their offset. */
  lemma {:induction false} RestSpliced(id: seq<nat>, done: seq<nat>, pieces: seq<seq<nat>>, acc: seq<nat>, more: seq<Reception>)
    requires |id| == 16 && Pieces(pieces) && pieces != [] && |done + Joined(pieces)| < MAX_TOTAL_LENGTH
    requires done == [] || (|acc| == |done + Joined(pieces)| && acc[..|done|] == done)
    ensures Splices(acc, FragmentsFrom(id, |done + Joined(pieces)|, |done|, pieces) + more) == Done(done + Joined(pieces))
    decreases |pieces|
  {
    hide Take, FragmentsFrom;
    var p, rest := pieces[0], pieces[1..];
    assert done + Joined(pieces) == done + p + Joined(rest);
    FragmentsStep(id, |done + Joined(pieces)|, |done|, pieces, more);
    OneTaken(id, done, p, Joined(rest), acc);
    if rest == [] {
      assert Joined(rest) == [] && done + p + [] == done + p;
    } else {
      assert forall i | 0 <= i < |rest| :: rest[i] == pieces[i + 1];
      PiecesLonger(rest);
      var acc' := Take(acc, FragmentOf(id, |done + Joined(pieces)|, |done|, p).bytes).acc;
      RestSpliced(id, done + p, rest, acc', more);
    }
  }

  /** Every message below 2 GiB, cut into any non-empty pieces and sent in order, comes back whole. */
  lemma SplicedWhole(id: seq<nat>, pieces: seq<seq<nat>>, more: seq<Reception>)
    requires |id| == 16 && Pieces(pieces) && pieces != [] && |Joined(pieces)| < MAX_TOTAL_LENGTH
    ensures Spliced(FragmentsFrom(id, |Joined(pieces)|, 0, pieces) + more) == Done(Joined(pieces))
  {
    hide Splices;
    assert [] + Joined(pieces) == Joined(pieces);
    RestSpliced(id, [], pieces, [], more);
    assert (FragmentsFrom(id, |Joined(pieces)|, 0, pieces) + more)[0].Fragment?;
  }
}
