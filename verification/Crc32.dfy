/**
 The checksum as the code computes it by table.
 */
module Crc32 {
  import opened CrcBits
  import opened CrcTable

  /** The low byte goes through eight steps; the rest is only shifted. */
  lemma ByTable(c: bv32)
    ensures Eight(c) == Xor(Shr8(c), Eight(Low8(c)))
  {
    hide Eight, Xor, Shr8, Low8, High24;
    Halves(c);
    EightXor(High24(c), Low8(c));
    EightShifts(High24(c));
  }

  lemma Halves(c: bv32)
    ensures Xor(High24(c), Low8(c)) == c && Low8(High24(c)) == 0 && Shr8(High24(c)) == Shr8(c) && Low8(c) < 256
  {
  }

  lemma ByteShift(c: bv32, b: bv8)
    ensures Shr8(Xor(c, Wide(b))) == Shr8(c) && Xor(Wide(b), c) == Xor(c, Wide(b))
  {
  }

  /** One byte through the table. */
  function LookUp(crc: bv32, b: bv8): (r: bv32) {
    Xor(Shr8(crc), Table(Low8(Xor(Wide(b), crc))))
  }

  /** Looking a byte up is eight division steps. */
  lemma LookUpExact(crc: bv32, b: bv8)
    ensures LookUp(crc, b) == ByteStep(crc, b)
  {
    hide Eight, Table, Xor, Shr8, Low8, Wide;
    var x := Xor(crc, Wide(b));
    ByteShift(crc, b);
    Halves(x);
    TableExact(Low8(x));
    ByTable(x);
  }

  /** The table-driven checksum is the bit-by-bit checksum. */
  method NetCrc32C(buffer: seq<bv8>) returns (r: bv32)
    ensures r == Crc32C(buffer)
  {
    hide ByteStep, LookUp, Fold, Invert;
    var crc: bv32 := 0xFFFF_FFFF;
    FoldNone(0xFFFF_FFFF);
    for i := 0 to |buffer|
      invariant crc == Fold(0xFFFF_FFFF, buffer[..i])
    {
      LookUpExact(crc, buffer[i]);
      FoldNext(0xFFFF_FFFF, buffer, i);
      crc := LookUp(crc, buffer[i]);
    }
    assert buffer[..|buffer|] == buffer;
    r := Invert(crc);
  }

  lemma FoldNone(c: bv32)
    ensures Fold(c, []) == c
  {
  }

  lemma FoldNext(c: bv32, s: seq<bv8>, i: nat)
    requires i < |s|
    ensures Fold(c, s[..i + 1]) == ByteStep(Fold(c, s[..i]), s[i])
  {
    hide ByteStep, Fold;
    assert s[..i + 1] == s[..i] + [s[i]];
    FoldConcat(c, s[..i], [s[i]]);
    FoldOne(Fold(c, s[..i]), s[i]);
  }
}
