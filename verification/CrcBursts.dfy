/**
 What the checksum detects: any change confined to four consecutive bytes.
 */
module CrcBursts {
  import opened CrcBits

  lemma EightInjective(x: bv32, y: bv32)
    requires Eight(x) == Eight(y)
    ensures x == y
  {
    hide Step;
    var a1, b1 := Step(x), Step(y);
    var a2, b2 := Step(a1), Step(b1);
    var a3, b3 := Step(a2), Step(b2);
    var a4, b4 := Step(a3), Step(b3);
    var a5, b5 := Step(a4), Step(b4);
    var a6, b6 := Step(a5), Step(b5);
    var a7, b7 := Step(a6), Step(b6);
    StepInjective(a7, b7);
    StepInjective(a6, b6);
    StepInjective(a5, b5);
    StepInjective(a4, b4);
    StepInjective(a3, b3);
    StepInjective(a2, b2);
    StepInjective(a1, b1);
    StepInjective(x, y);
  }

  lemma XorCancel(x: bv32, y: bv32, z: bv32)
    requires Xor(x, z) == Xor(y, z) || Xor(z, x) == Xor(z, y)
    ensures x == y
  {
  }

  /** Different registers stay different whatever follows. */
  lemma {:induction false} FoldInjective(c: bv32, d: bv32, s: seq<bv8>)
    requires Fold(c, s) == Fold(d, s)
    ensures c == d
    decreases |s|
  {
    hide Eight, Xor, Wide;
    if s != [] {
      FoldInjective(ByteStep(c, s[0]), ByteStep(d, s[0]), s[1..]);
      EightInjective(Xor(c, Wide(s[0])), Xor(d, Wide(s[0])));
      XorCancel(c, d, Wide(s[0]));
    }
  }

  // ----- up to four bytes as one word

  function Shl8(x: bv32): (r: bv32) {
    x << 8
  }

  /** Four bytes, the first lowest. */
  function Word(s: seq<bv8>): (r: bv32)
    requires |s| <= 4
  {
    if s == [] then 0 else Xor(Wide(s[0]), Shl8(Word(s[1..])))
  }

  predicate Below24(x: bv32) {
    x & 0xFF00_0000 == 0
  }

  lemma WordBelow(s: seq<bv8>)
    requires |s| <= 3
    ensures Below24(Word(s))
  {
    if |s| == 1 {
      assert s[1..] == [];
      Pack1(s[0]);
    } else if |s| == 2 {
      assert s[1..][1..] == [];
      Pack2(s[0], s[1]);
    } else if |s| == 3 {
      assert s[1..][1..][1..] == [];
      Pack3(s[0], s[1], s[2]);
    }
  }

  lemma Pack1(a: bv8)
    ensures Below24(Xor(Wide(a), Shl8(0)))
  {
  }

  lemma Pack2(a: bv8, b: bv8)
    ensures Below24(Xor(Wide(a), Shl8(Xor(Wide(b), Shl8(0)))))
  {
  }

  lemma Pack3(a: bv8, b: bv8, c: bv8)
    ensures Below24(Xor(Wide(a), Shl8(Xor(Wide(b), Shl8(Xor(Wide(c), Shl8(0)))))))
  {
  }

  lemma Unpack(a: bv8, x: bv32, b: bv8, y: bv32)
    requires Below24(x) && Below24(y) && Xor(Wide(a), Shl8(x)) == Xor(Wide(b), Shl8(y))
    ensures a == b && x == y
  {
  }

  lemma {:induction false} WordInjective(s: seq<bv8>, t: seq<bv8>)
    requires |s| == |t| <= 4 && Word(s) == Word(t)
    ensures s == t
    decreases |s|
  {
    hide Xor, Wide, Shl8, Below24;
    if s != [] {
      WordBelow(s[1..]);
      WordBelow(t[1..]);
      Unpack(s[0], Word(s[1..]), t[0], Word(t[1..]));
      WordInjective(s[1..], t[1..]);
      assert s == [s[0]] + s[1..] && t == [t[0]] + t[1..];
    }
  }

  lemma Shl8Facts(x: bv32)
    requires Below24(x)
    ensures Low8(Shl8(x)) == 0 && Shr8(Shl8(x)) == x
  {
  }

  lemma XorAssociates(x: bv32, y: bv32, z: bv32)
    ensures Xor(x, Xor(y, z)) == Xor(Xor(x, y), z)
  {
  }

  /** The bytes behind the first wait above it while it goes through. */
  lemma FirstByte(c: bv32, s: seq<bv8>)
    requires 0 < |s| <= 4
    ensures Eight(Xor(c, Word(s))) == Xor(ByteStep(c, s[0]), Word(s[1..]))
  {
    hide Eight, Xor, Wide, Shl8, Shr8, Low8, Below24;
    var x := Word(s[1..]);
    WordBelow(s[1..]);
    Shl8Facts(x);
    XorAssociates(c, Wide(s[0]), Shl8(x));
    EightXor(Xor(c, Wide(s[0])), Shl8(x));
    EightShifts(Shl8(x));
  }

  /** Registers that meet after up to four bytes differed exactly as those bytes did. */
  lemma {:induction false} Meet(c: bv32, s: seq<bv8>, d: bv32, t: seq<bv8>)
    requires |s| == |t| <= 4 && Fold(c, s) == Fold(d, t)
    ensures Xor(c, Word(s)) == Xor(d, Word(t))
    decreases |s|
  {
    hide Eight, Xor, Wide, ByteStep;
    if s != [] {
      Meet(ByteStep(c, s[0]), s[1..], ByteStep(d, t[0]), t[1..]);
      FirstByte(c, s);
      FirstByte(d, t);
      EightInjective(Xor(c, Word(s)), Xor(d, Word(t)));
    }
  }

  lemma NotInjective(x: bv32, y: bv32)
    requires Invert(x) == Invert(y)
    ensures x == y
  {
  }

  /** Two buffers of the same length that differ only within four consecutive bytes have different checksums. */
  lemma BurstDetected(before: seq<bv8>, s: seq<bv8>, t: seq<bv8>, after: seq<bv8>)
    requires |s| == |t| <= 4 && s != t
    ensures Crc32C(before + s + after) != Crc32C(before + t + after)
  {
    hide Fold, Xor, Word, Invert;
    var c := Fold(0xFFFF_FFFF, before);
    FoldConcat(0xFFFF_FFFF, before + s, after);
    FoldConcat(0xFFFF_FFFF, before + t, after);
    FoldConcat(0xFFFF_FFFF, before, s);
    FoldConcat(0xFFFF_FFFF, before, t);
    if Crc32C(before + s + after) == Crc32C(before + t + after) {
      SameWindow(c, s, t, after);
    }
  }

  lemma SameWindow(c: bv32, s: seq<bv8>, t: seq<bv8>, after: seq<bv8>)
    requires |s| == |t| <= 4 && Invert(Fold(Fold(c, s), after)) == Invert(Fold(Fold(c, t), after))
    ensures s == t
  {
    hide Fold, Xor, Word, Invert;
    NotInjective(Fold(Fold(c, s), after), Fold(Fold(c, t), after));
    FoldInjective(Fold(c, s), Fold(c, t), after);
    Meet(c, s, c, t);
    XorCancel(Word(s), Word(t), c);
    WordInjective(s, t);
  }
}
