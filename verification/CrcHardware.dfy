/**
 The checksum with the processor's instructions: on words of eight, four, two and one bytes, and on
 aarch64 first up to an address that is a multiple of 4, then on words of four bytes and the rest.
 */
module CrcHardware {
  import opened CrcBits

  /** A register wide enough for the largest word. */
  function Step64(x: bv64): (r: bv64) {
    if x & 1 == 1 then (x >> 1) ^ 0x82F63B78 else x >> 1
  }

  function Eight64(x: bv64): (r: bv64) {
    Step64(Step64(Step64(Step64(Step64(Step64(Step64(Step64(x))))))))
  }

  function Extend(c: bv32): (r: bv64) {
    c as bv64
  }

  function ExtendByte(b: bv8): (r: bv64) {
    b as bv64
  }

  function Xor64(x: bv64, y: bv64): (r: bv64) {
    x ^ y
  }

  function Shl64(x: bv64): (r: bv64) {
    x << 8
  }

  /** Bytes as a word, the first lowest. */
  function Word64(s: seq<bv8>): (r: bv64) {
    if s == [] then 0 else Xor64(ExtendByte(s[0]), Shl64(Word64(s[1..])))
  }

  function Divided(x: bv64, n: nat): (r: bv64)
    decreases n
  {
    if n == 0 then x else Divided(Eight64(x), n - 1)
  }

  /** The instruction for a word of n bytes: the word enters the register, and 8 n steps follow. */
  function Crc32Instruction(crc: bv32, word: bv64, n: nat): (r: bv32) {
    (Divided(Xor64(Extend(crc), word), n) & 0xFFFF_FFFF) as bv32
  }

  // ----- steps of the wide register

  lemma Shift64(x: bv64, y: bv64)
    ensures (x ^ y) >> 1 == (x >> 1) ^ (y >> 1)
  {
  }

  lemma Low64(x: bv64, y: bv64)
    ensures (x ^ y) & 1 == (x & 1) ^ (y & 1) && (x & 1 == 0 || x & 1 == 1) && (y & 1 == 0 || y & 1 == 1)
  {
  }

  lemma Regroup64(a: bv64, b: bv64, p: bv64)
    ensures (a ^ p) ^ (b ^ p) == a ^ b && (a ^ p) ^ b == (a ^ b) ^ p && a ^ (b ^ p) == (a ^ b) ^ p
  {
  }

  lemma Step64Xor(x: bv64, y: bv64)
    ensures Step64(Xor64(x, y)) == Xor64(Step64(x), Step64(y))
  {
    Shift64(x, y);
    Low64(x, y);
    Regroup64(x >> 1, y >> 1, 0x82F63B78);
  }

  lemma Eight64Xor(x: bv64, y: bv64)
    ensures Eight64(Xor64(x, y)) == Xor64(Eight64(x), Eight64(y))
  {
    hide Step64, Xor64;
    var a1, b1 := Step64(x), Step64(y);
    Step64Xor(x, y);
    var a2, b2 := Step64(a1), Step64(b1);
    Step64Xor(a1, b1);
    var a3, b3 := Step64(a2), Step64(b2);
    Step64Xor(a2, b2);
    var a4, b4 := Step64(a3), Step64(b3);
    Step64Xor(a3, b3);
    var a5, b5 := Step64(a4), Step64(b4);
    Step64Xor(a4, b4);
    var a6, b6 := Step64(a5), Step64(b5);
    Step64Xor(a5, b5);
    var a7, b7 := Step64(a6), Step64(b6);
    Step64Xor(a6, b6);
    Step64Xor(a7, b7);
  }

  lemma ExtendLow(c: bv32)
    ensures Extend(c) & 1 == 1 <==> c & 1 == 1
  {
  }

  lemma ExtendShift(c: bv32)
    ensures Extend(c) >> 1 == Extend(c >> 1)
  {
  }

  lemma ExtendPoly(c: bv32)
    ensures Extend(c) ^ 0x82F63B78 == Extend(c ^ 0x82F63B78)
  {
  }

  lemma StepExtends(c: bv32)
    ensures Step64(Extend(c)) == Extend(Step(c))
  {
    hide Extend;
    ExtendLow(c);
    ExtendShift(c);
    ExtendPoly(c >> 1);
  }

  lemma EightExtends(c: bv32)
    ensures Eight64(Extend(c)) == Extend(Eight(c))
  {
    hide Step64, Step, Extend;
    var a1 := Step(c);
    StepExtends(c);
    var a2 := Step(a1);
    StepExtends(a1);
    var a3 := Step(a2);
    StepExtends(a2);
    var a4 := Step(a3);
    StepExtends(a3);
    var a5 := Step(a4);
    StepExtends(a4);
    var a6 := Step(a5);
    StepExtends(a5);
    var a7 := Step(a6);
    StepExtends(a6);
    StepExtends(a7);
  }

  predicate TopClear(x: bv64) {
    x & 0xFF00_0000_0000_0000 == 0
  }

  lemma Eight64Shifts(x: bv64)
    requires TopClear(x)
    ensures Eight64(Shl64(x)) == x
  {
  }

  // ----- words

  /** Bits from byte k up. */
  function From(k: nat): (r: bv64) {
    if k == 0 then 0xFFFF_FFFF_FFFF_FFFF else Shl64(From(k - 1))
  }

  function And64(x: bv64, y: bv64): (r: bv64) {
    x & y
  }

  lemma PackAbove(b: bv8, x: bv64, m: bv64)
    requires And64(x, m) == 0
    ensures And64(Xor64(ExtendByte(b), Shl64(x)), Shl64(m)) == 0
  {
  }

  lemma {:induction false} WordAbove(s: seq<bv8>)
    ensures And64(Word64(s), From(|s|)) == 0
    decreases |s|
  {
    hide And64, Xor64, Shl64, ExtendByte;
    if s == [] {
      ZeroAnd(From(0));
    } else {
      WordAbove(s[1..]);
      PackAbove(s[0], Word64(s[1..]), From(|s| - 1));
    }
  }

  lemma ZeroAnd(m: bv64)
    ensures And64(0, m) == 0
  {
  }

  lemma TopFrom(k: nat)
    requires k <= 7
    ensures And64(From(k), 0xFF00_0000_0000_0000) == 0xFF00_0000_0000_0000
  {
    assert From(0) == 0xFFFF_FFFF_FFFF_FFFF;
    assert From(1) == 0xFFFF_FFFF_FFFF_FF00;
    assert From(2) == 0xFFFF_FFFF_FFFF_0000;
    assert From(3) == 0xFFFF_FFFF_FF00_0000;
    assert From(4) == 0xFFFF_FFFF_0000_0000;
    assert From(5) == 0xFFFF_FF00_0000_0000;
    assert From(6) == 0xFFFF_0000_0000_0000;
    assert From(7) == 0xFF00_0000_0000_0000;
  }

  lemma ClearBelow(x: bv64, m: bv64)
    requires And64(x, m) == 0 && And64(m, 0xFF00_0000_0000_0000) == 0xFF00_0000_0000_0000
    ensures TopClear(x)
  {
  }

  lemma WordTopClear(s: seq<bv8>)
    requires |s| <= 7
    ensures TopClear(Word64(s))
  {
    hide And64, TopClear, From, Word64;
    WordAbove(s);
    TopFrom(|s|);
    ClearBelow(Word64(s), From(|s|));
  }

  lemma Regroup(c: bv32, b: bv8, x: bv64)
    ensures Xor64(Extend(c), Xor64(ExtendByte(b), x)) == Xor64(Extend(Xor(c, Wide(b))), x)
  {
  }

  /** The first byte goes through; the others move down. */
  lemma WordFirst(c: bv32, s: seq<bv8>)
    requires 0 < |s| <= 8
    ensures Eight64(Xor64(Extend(c), Word64(s))) == Xor64(Extend(ByteStep(c, s[0])), Word64(s[1..]))
  {
    hide Eight64, Eight, Xor64, Xor, Extend, ExtendByte, Wide, Shl64, TopClear;
    var x := Word64(s[1..]);
    WordTopClear(s[1..]);
    Regroup(c, s[0], Shl64(x));
    Eight64Xor(Extend(Xor(c, Wide(s[0]))), Shl64(x));
    EightExtends(Xor(c, Wide(s[0])));
    Eight64Shifts(x);
  }

  lemma {:induction false} WordDivided(c: bv32, s: seq<bv8>)
    requires |s| <= 8
    ensures Divided(Xor64(Extend(c), Word64(s)), |s|) == Extend(Fold(c, s))
    decreases |s|
  {
    hide Eight64, Xor64, Extend, ByteStep;
    if s == [] {
      XorNothing(Extend(c));
    } else {
      WordFirst(c, s);
      WordDivided(ByteStep(c, s[0]), s[1..]);
    }
  }

  lemma XorNothing(x: bv64)
    ensures Xor64(x, 0) == x
  {
  }

  lemma Truncated(c: bv32)
    ensures (Extend(c) & 0xFFFF_FFFF) as bv32 == c
  {
  }

  /** One instruction on a word does what its bytes do one after the other. */
  lemma InstructionFolds(c: bv32, s: seq<bv8>)
    requires |s| <= 8
    ensures Crc32Instruction(c, Word64(s), |s|) == Fold(c, s)
  {
    hide Divided, Xor64, Extend, Fold, Word64;
    WordDivided(c, s);
    Truncated(Fold(c, s));
  }

  // ----- the code

  /** len words of width bytes from pos on. */
  method CalcCrcWords(buffer: seq<bv8>, pos: nat, len: nat, width: nat, crc: bv32) returns (pos': nat, crc': bv32)
    requires 0 < width <= 8 && pos + len * width <= |buffer|
    ensures pos' == pos + len * width && crc' == Fold(crc, buffer[pos..pos'])
  {
    hide Crc32Instruction, Word64, Fold;
    pos', crc' := pos, crc;
    NoBytes(crc);
    assert buffer[pos..pos] == [];
    for index := 0 to len
      invariant pos' == pos + index * width <= pos + len * width
      invariant crc' == Fold(crc, buffer[pos..pos'])
    {
      Room(index, len, width);
      var next := pos' + width;
      ghost var word := buffer[pos'..next];
      InstructionFolds(crc', word);
      assert buffer[pos..next] == buffer[pos..pos'] + word;
      FoldConcat(crc, buffer[pos..pos'], word);
      crc' := Crc32Instruction(crc', Word64(buffer[pos'..next]), width);
      pos' := next;
    }
  }

  lemma NoBytes(c: bv32)
    ensures Fold(c, []) == c
  {
  }

  lemma Room(i: nat, n: nat, w: nat)
    requires i < n
    ensures i * w + w == (i + 1) * w <= n * w
  {
  }

  /** The checksum in words of eight, four, two and one bytes is the bit-by-bit checksum. */
  method NetCrc32CHardware(buffer: seq<bv8>) returns (r: bv32)
    ensures r == Crc32C(buffer)
  {
    hide Fold, Invert;
    if |buffer| == 0 {
      EmptyChecksum();
      return 0;
    }
    var crc: bv32 := 0xFFFF_FFFF;
    var len := |buffer|;
    var p1, c1 := CalcCrcWords(buffer, 0, len / 8, 8, crc);
    len := len % 8;
    var p2, c2 := CalcCrcWords(buffer, p1, len / 4, 4, c1);
    FoldJoin(crc, buffer, p1, p2);
    len := len % 4;
    var p3, c3 := CalcCrcWords(buffer, p2, len / 2, 2, c2);
    FoldJoin(crc, buffer, p2, p3);
    len := len % 2;
    var p4, c4 := CalcCrcWords(buffer, p3, len, 1, c3);
    FoldJoin(crc, buffer, p3, p4);
    assert buffer[0..p1] == buffer[..p1] && buffer[..p4] == buffer;
    r := Invert(c4);
  }

  lemma EmptyChecksum()
    ensures Crc32C([]) == 0
  {
  }

  lemma FoldJoin(c: bv32, s: seq<bv8>, i: nat, j: nat)
    requires i <= j <= |s|
    ensures Fold(Fold(c, s[..i]), s[i..j]) == Fold(c, s[..j])
  {
    hide Fold;
    assert s[..j] == s[..i] + s[i..j];
    FoldConcat(c, s[..i], s[i..j]);
  }

  // ----- aarch64

  /** A checksum, or a read behind the end of the buffer. */
  datatype CrcResult = Checksum(crc: bv32) | ReadsBeyond

  /** Bytes up to the next multiple of 4. */
  function ToAlign(address: nat): (n: nat)
    ensures n < 4 && (address + n) % 4 == 0
  {
    (4 - address % 4) % 4
  }

  /** What is left of the length after them, in a 32-bit word. */
  function Remaining(address: nat, length: nat): (n: nat) {
    (length - ToAlign(address)) % 0x1_0000_0000
  }

  /** The length is right exactly if the buffer reaches the next multiple of 4. */
  lemma RemainingExactly(address: nat, length: nat)
    requires length < 0x1_0000_0000
    ensures ToAlign(address) + Remaining(address, length) == length <==> length >= ToAlign(address)
  {
  }

  /** One byte at an address behind a multiple of 4: three bytes are read, and then almost 4 GiB. */
  lemma OneByte(address: nat)
    requires address % 4 == 1
    ensures ToAlign(address) == 3 && Remaining(address, 1) == 0xFFFF_FFFE
  {
  }

  /**
   On aarch64 the checksum is the bit-by-bit one exactly if the buffer is empty or reaches the next
   multiple of 4; otherwise the code reads behind its end.
   */
  method NetCrc32CAarch64(buffer: seq<bv8>, address: nat) returns (r: CrcResult)
    requires |buffer| < 0x1_0000_0000
    ensures r == Checksum(Crc32C(buffer)) <==> |buffer| == 0 || |buffer| >= ToAlign(address)
    ensures r == ReadsBeyond <==> 0 < |buffer| < ToAlign(address)
  {
    hide Fold, Invert, ToAlign;
    if |buffer| == 0 {
      EmptyChecksum();
      return Checksum(0);
    }
    var toAlign := ToAlign(address);
    RemainingExactly(address, |buffer|);
    var crc: bv32, pos := 0xFFFF_FFFF, 0;
    NoBytes(crc);
    assert buffer[..0] == [];
    for i := 0 to toAlign
      invariant pos == i <= |buffer| && crc == Fold(0xFFFF_FFFF, buffer[..pos])
    {
      if pos == |buffer| {
        return ReadsBeyond;
      }
      ghost var pos0 := pos;
      pos, crc := CalcCrcWords(buffer, pos, 1, 1, crc);
      FoldJoin(0xFFFF_FFFF, buffer, pos0, pos);
    }
    var length := Remaining(address, |buffer|);
    var p2, c2 := CalcCrcWords(buffer, pos, length / 4, 4, crc);
    FoldJoin(0xFFFF_FFFF, buffer, pos, p2);
    var p3, c3 := CalcCrcWords(buffer, p2, length % 4, 1, c2);
    FoldJoin(0xFFFF_FFFF, buffer, p2, p3);
    assert buffer[..p3] == buffer;
    r := Checksum(Invert(c3));
  }
}
