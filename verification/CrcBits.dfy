/**
 CRC-32C bit by bit: one division step, the eight steps of a byte, and what they keep.
 */
module CrcBits {

  /** The generator 0x1EDC6F41 with its bits in reverse. */
  const POLY: bv32 := 0x82F63B78

  function Xor(a: bv32, b: bv32): (r: bv32) {
    a ^ b
  }

  function Low8(c: bv32): (r: bv32) {
    c & 0xFF
  }

  function High24(c: bv32): (r: bv32) {
    c & 0xFFFF_FF00
  }

  function Shr8(c: bv32): (r: bv32) {
    c >> 8
  }

  function Invert(c: bv32): (r: bv32) {
    !c
  }

  function Wide(b: bv8): (r: bv32) {
    b as bv32
  }

  /** One division step on a register that shifts towards its lowest bit. */
  function Step(c: bv32): (r: bv32) {
    if c & 1 == 1 then (c >> 1) ^ 0x82F63B78 else c >> 1
  }

  function Eight(c: bv32): (r: bv32) {
    Step(Step(Step(Step(Step(Step(Step(Step(c))))))))
  }

  /** A byte enters at the low end. */
  function ByteStep(c: bv32, b: bv8): (r: bv32) {
    Eight(Xor(c, Wide(b)))
  }

  function Fold(c: bv32, s: seq<bv8>): (r: bv32)
    decreases |s|
  {
    if s == [] then c else Fold(ByteStep(c, s[0]), s[1..])
  }

  /** The checksum of a buffer. */
  function Crc32C(s: seq<bv8>): (r: bv32) {
    Invert(Fold(0xFFFF_FFFF, s))
  }

  lemma {:induction false} FoldConcat(c: bv32, s: seq<bv8>, t: seq<bv8>)
    ensures Fold(c, s + t) == Fold(Fold(c, s), t)
    decreases |s|
  {
    if s == [] {
      assert s + t == t;
    } else {
      assert (s + t)[0] == s[0] && (s + t)[1..] == s[1..] + t;
      FoldConcat(ByteStep(c, s[0]), s[1..], t);
    }
  }

  lemma FoldOne(c: bv32, b: bv8)
    ensures Fold(c, [b]) == ByteStep(c, b)
  {
    assert [b][1..] == [];
  }

  // ----- division steps are linear and lose nothing

  lemma ShiftXor(x: bv32, y: bv32)
    ensures (x ^ y) >> 1 == (x >> 1) ^ (y >> 1)
  {
  }

  lemma LowBit(x: bv32)
    ensures x & 1 == 0 || x & 1 == 1
  {
  }

  lemma LowXor(x: bv32, y: bv32)
    ensures (x ^ y) & 1 == (x & 1) ^ (y & 1)
  {
  }

  lemma XorRegroup(a: bv32, b: bv32, p: bv32)
    ensures (a ^ p) ^ (b ^ p) == a ^ b && (a ^ p) ^ b == (a ^ b) ^ p && a ^ (b ^ p) == (a ^ b) ^ p
  {
  }

  lemma StepXor(x: bv32, y: bv32)
    ensures Step(Xor(x, y)) == Xor(Step(x), Step(y))
  {
    ShiftXor(x, y);
    LowXor(x, y);
    LowBit(x);
    LowBit(y);
    XorRegroup(x >> 1, y >> 1, 0x82F63B78);
  }

  lemma EightXor(x: bv32, y: bv32)
    ensures Eight(Xor(x, y)) == Xor(Eight(x), Eight(y))
  {
    hide Step, Xor;
    var a1, b1 := Step(x), Step(y);
    StepXor(x, y);
    var a2, b2 := Step(a1), Step(b1);
    StepXor(a1, b1);
    var a3, b3 := Step(a2), Step(b2);
    StepXor(a2, b2);
    var a4, b4 := Step(a3), Step(b3);
    StepXor(a3, b3);
    var a5, b5 := Step(a4), Step(b4);
    StepXor(a4, b4);
    var a6, b6 := Step(a5), Step(b5);
    StepXor(a5, b5);
    var a7, b7 := Step(a6), Step(b6);
    StepXor(a6, b6);
    StepXor(a7, b7);
  }

  lemma StepInjective(x: bv32, y: bv32)
    requires Step(x) == Step(y)
    ensures x == y
  {
  }

  /** A word whose low eight bits are clear is only shifted. */
  lemma EightShifts(x: bv32)
    requires Low8(x) == 0
    ensures Eight(x) == Shr8(x)
  {
  }
}
