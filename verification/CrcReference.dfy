/**
 The checksum as section 12.1 of RFC 3720 describes it: division by the generator 0x1EDC6F41, the
 bits of each byte from the lowest to the highest, start value and result inverted, and the
 result with its bits in reverse. It is the same checksum.
 */
module CrcReference {
  import opened CrcBits

  const GENERATOR: bv32 := 0x1EDC_6F41

  /** One division step on a register that shifts towards its highest bit. */
  function Divide(c: bv32): (r: bv32) {
    if c & 0x8000_0000 != 0 then (c << 1) ^ 0x1EDC_6F41 else c << 1
  }

  function Lowest(b: bv32): (r: bv32) {
    b & 1
  }

  function Half(b: bv32): (r: bv32) {
    b >> 1
  }

  function DivideBit(c: bv32, bit: bv32): (r: bv32) {
    Divide(Xor(c, bit << 31))
  }

  /** The n lowest bits of b, the lowest first. */
  function DivideBits(c: bv32, b: bv32, n: nat): (r: bv32)
    decreases n
  {
    if n == 0 then c else DivideBits(DivideBit(c, Lowest(b)), Half(b), n - 1)
  }

  function DivideAll(c: bv32, s: seq<bv8>): (r: bv32)
    decreases |s|
  {
    if s == [] then c else DivideAll(DivideBits(c, Wide(s[0]), 8), s[1..])
  }

  function Reverse(x: bv32): (r: bv32) {
    var a := ((x >> 1) & 0x5555_5555) | ((x & 0x5555_5555) << 1);
    var b := ((a >> 2) & 0x3333_3333) | ((a & 0x3333_3333) << 2);
    var c := ((b >> 4) & 0x0F0F_0F0F) | ((b & 0x0F0F_0F0F) << 4);
    var d := ((c >> 8) & 0x00FF_00FF) | ((c & 0x00FF_00FF) << 8);
    (d >> 16) | (d << 16)
  }

  function Reference(s: seq<bv8>): (r: bv32) {
    Invert(Reverse(DivideAll(0xFFFF_FFFF, s)))
  }

  // ----- the two directions mirror each other

  lemma GeneratorReversed()
    ensures Reverse(GENERATOR) == POLY
  {
  }

  lemma ReverseTwice(x: bv32)
    ensures Reverse(Reverse(x)) == x
  {
  }

  lemma ReverseXor(x: bv32, y: bv32)
    ensures Reverse(Xor(x, y)) == Xor(Reverse(x), Reverse(y))
  {
  }

  lemma ReverseShift(x: bv32)
    ensures Reverse(x >> 1) == Reverse(x) << 1
    ensures Reverse(x) & 0x8000_0000 != 0 <==> x & 1 == 1
  {
  }

  lemma ReverseBit(bit: bv32)
    requires bit < 2
    ensures Reverse(bit) == bit << 31
  {
  }

  lemma Mirror(c: bv32)
    ensures Reverse(Step(c)) == Divide(Reverse(c))
  {
    hide Reverse;
    GeneratorReversed();
    ReverseShift(c);
    ReverseXor(c >> 1, POLY);
    ReverseTwice(GENERATOR);
  }

  lemma MirrorBit(c: bv32, bit: bv32)
    requires bit < 2
    ensures Reverse(Step(Xor(c, bit))) == DivideBit(Reverse(c), bit)
  {
    hide Reverse, Xor, Step, Divide;
    Mirror(Xor(c, bit));
    ReverseXor(c, bit);
    ReverseBit(bit);
  }

  // ----- a byte at once is its bits one by one

  function Serial(c: bv32, b: bv32, n: nat): (r: bv32)
    decreases n
  {
    if n == 0 then c else Serial(Step(Xor(c, Lowest(b))), Half(b), n - 1)
  }

  function Steps(c: bv32, n: nat): (r: bv32)
    decreases n
  {
    if n == 0 then c else Steps(Step(c), n - 1)
  }

  function Above(b: bv32, n: nat): (r: bv32)
    decreases n
  {
    if n == 0 then b else Above(Half(b), n - 1)
  }

  function Even(b: bv32): (r: bv32) {
    b & 0xFFFF_FFFE
  }

  /** Only the lowest bit takes part in a step; the bits above it wait, one place further down. */
  lemma OneBit(c: bv32, b: bv32)
    ensures Step(Xor(c, b)) == Xor(Step(Xor(c, Lowest(b))), Half(b))
  {
    hide Step, Xor, Even, Half, Lowest;
    Parts(c, b);
    StepXor(Xor(c, Lowest(b)), Even(b));
    EvenStep(b);
  }

  lemma Parts(c: bv32, b: bv32)
    ensures Xor(c, b) == Xor(Xor(c, Lowest(b)), Even(b))
  {
  }

  lemma EvenStep(b: bv32)
    ensures Step(Even(b)) == Half(b)
  {
  }

  lemma {:induction false} StepsSerial(c: bv32, b: bv32, n: nat)
    ensures Steps(Xor(c, b), n) == Xor(Serial(c, b, n), Above(b, n))
    decreases n
  {
    hide Step, Xor, Half, Lowest;
    if n > 0 {
      OneBit(c, b);
      StepsSerial(Step(Xor(c, Lowest(b))), Half(b), n - 1);
    }
  }

  lemma {:induction false} SerialMirror(c: bv32, b: bv32, n: nat)
    ensures Reverse(Serial(c, b, n)) == DivideBits(Reverse(c), b, n)
    decreases n
  {
    hide Reverse, Step, Xor, Half, Lowest, DivideBit;
    if n > 0 {
      LowestBit(b);
      MirrorBit(c, Lowest(b));
      SerialMirror(Step(Xor(c, Lowest(b))), Half(b), n - 1);
    }
  }

  lemma LowestBit(b: bv32)
    ensures Lowest(b) < 2
  {
  }

  lemma EightSteps(c: bv32)
    ensures Steps(c, 8) == Eight(c)
  {
    hide Step;
    var d := Step(Step(Step(Step(c))));
    assert Steps(c, 8) == Steps(Step(c), 7) == Steps(Step(Step(c)), 6) == Steps(Step(Step(Step(c))), 5) == Steps(d, 4);
    assert Steps(d, 4) == Steps(Step(d), 3) == Steps(Step(Step(d)), 2) == Steps(Step(Step(Step(d))), 1);
  }

  lemma NothingAbove(b: bv8)
    ensures Above(Wide(b), 8) == 0
  {
    var x := Wide(b);
    ShiftedOut(b);
    hide Half, Wide;
    var y := Half(Half(Half(Half(x))));
    assert Above(x, 8) == Above(Half(x), 7) == Above(Half(Half(x)), 6) == Above(Half(Half(Half(x))), 5) == Above(y, 4);
    assert Above(y, 4) == Above(Half(y), 3) == Above(Half(Half(y)), 2) == Above(Half(Half(Half(y))), 1);
  }

  lemma ShiftedOut(b: bv8)
    ensures Half(Half(Half(Half(Half(Half(Half(Half(Wide(b))))))))) == 0
  {
  }

  lemma XorZero(x: bv32)
    ensures Xor(x, 0) == x
  {
  }

  /** One byte in both directions. */
  lemma MirrorByte(c: bv32, b: bv8)
    ensures Reverse(ByteStep(c, b)) == DivideBits(Reverse(c), Wide(b), 8)
  {
    hide Reverse, Eight, Xor, Wide, Steps, Serial, DivideBits, Above;
    EightSteps(Xor(c, Wide(b)));
    StepsSerial(c, Wide(b), 8);
    NothingAbove(b);
    XorZero(Serial(c, Wide(b), 8));
    SerialMirror(c, Wide(b), 8);
  }

  lemma {:induction false} MirrorAll(c: bv32, s: seq<bv8>)
    ensures Reverse(Fold(c, s)) == DivideAll(Reverse(c), s)
    decreases |s|
  {
    hide Reverse, ByteStep, DivideBits, Wide;
    if s != [] {
      MirrorByte(c, s[0]);
      MirrorAll(ByteStep(c, s[0]), s[1..]);
    }
  }

  lemma AllOnes()
    ensures Reverse(0xFFFF_FFFF) == 0xFFFF_FFFF
  {
  }

  /** The checksum of the code is the checksum of the standard, for every buffer. */
  lemma SameChecksum(s: seq<bv8>)
    ensures Crc32C(s) == Reference(s)
  {
    hide Reverse, Fold, DivideAll, Invert;
    AllOnes();
    MirrorAll(0xFFFF_FFFF, s);
    ReverseTwice(Fold(0xFFFF_FFFF, s));
  }
}
