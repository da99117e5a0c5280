/**
 An address and a size packed into one 64-bit entry: the address in the low 48 bits, the size in
 the 16 bits above.
 */
module AddrEntry {
  import opened Bits

  const ADDRESS_MASK: nat := 0xFFFF_FFFF_FFFF

  function MakeEntry(address: nat, size: nat): (e: nat) {
    Or(Shl(size, 48), address)
  }

  function GetSize(entry: nat): (size: nat) {
    Shr(entry, 48)
  }

  function GetAddress(entry: nat): (address: nat) {
    And(entry, ADDRESS_MASK)
  }

  predicate Packs(address: nat, size: nat) {
    address < 0x1_0000_0000_0000 && size < 0x1_0000
  }

  lemma Pow48()
    ensures Pow2(48) == 0x1_0000_0000_0000
  {
    assert Pow2(8) == 256;
    assert Pow2(16) == 0x1_0000;
    assert Pow2(24) == 0x100_0000;
    assert Pow2(32) == 0x1_0000_0000;
    assert Pow2(40) == 0x100_0000_0000;
  }

  lemma {:induction false} UpAsProduct(x: nat, n: nat, p: nat)
    requires p == Pow2(n)
    ensures Up(x, n) == p * x
  {
    if n > 0 {
      UpAsProduct(x, n - 1, Pow2(n - 1));
      assert 2 * (Pow2(n - 1) * x) == (2 * Pow2(n - 1)) * x;
    }
  }

  lemma Up48(x: nat)
    ensures Up(x, 48) == 0x1_0000_0000_0000 * x
  {
    Pow48();
    UpAsProduct(x, 48, 0x1_0000_0000_0000);
  }

  lemma Shr48(e: nat, x: nat)
    ensures Shr(e, 48) == x <==> 0x1_0000_0000_0000 * x <= e < 0x1_0000_0000_0000 * x + 0x1_0000_0000_0000
  {
    Pow48();
    Up48(x);
    ShrRange(e, x, 48);
  }

  lemma Mask48(e: nat)
    ensures GetAddress(e) == e - 0x1_0000_0000_0000 * Shr(e, 48) && GetAddress(e) < 0x1_0000_0000_0000
  {
    Pow48();
    AndLowMask(e, 48);
    Up48(Shr(e, 48));
    Shr48(e, Shr(e, 48));
  }

  /** Packing is plain arithmetic while both parts have room. */
  lemma EntryValue(address: nat, size: nat)
    requires Packs(address, size)
    ensures MakeEntry(address, size) == 0x1_0000_0000_0000 * size + address
  {
    Pow48();
    Up48(size);
    OrDisjoint(size, address, 48);
  }

  /** Unpacking gives address and size back; an entry for an address is never the empty slot. */
  lemma EntryRoundTrip(address: nat, size: nat)
    requires Packs(address, size)
    ensures GetAddress(MakeEntry(address, size)) == address && GetSize(MakeEntry(address, size)) == size
    ensures MakeEntry(address, size) == 0 ==> address == 0
  {
    hide And, Shr, Or, Shl;
    EntryValue(address, size);
    Shr48(MakeEntry(address, size), size);
    Mask48(MakeEntry(address, size));
  }

  lemma EmptyAddress()
    ensures GetAddress(0) == 0
  {
  }

  lemma {:induction false} OrBelow(a: nat, b: nat, n: nat)
    requires a < Pow2(n) && b < Pow2(n)
    ensures Or(a, b) < Pow2(n)
  {
    if a != 0 && b != 0 { OrBelow(a / 2, b / 2, n - 1); }
  }

  /** Every 64-bit address and size comes back exactly if the address has 48 bits and the size 16. */
  lemma RoundTripExactly(address: nat, size: nat)
    requires address < WORD && size < WORD
    ensures GetAddress(MakeEntry(address, size)) == address && GetSize(MakeEntry(address, size)) == size
       <==> Packs(address, size)
  {
    var e := MakeEntry(address, size);
    Pow2Word();
    OrBelow(Shl(size, 48), address, 64);
    hide And, Shr, Or, Shl;
    Mask48(e);
    Shr48(e, GetSize(e));
    if Packs(address, size) { EntryRoundTrip(address, size); }
  }

  /** With a 48-bit address in it an entry keeps the address, and of the size its low 16 bits. */
  lemma EntryKeepsLow(address: nat, size: nat)
    requires address < 0x1_0000_0000_0000
    ensures GetAddress(MakeEntry(address, size)) == address && GetSize(MakeEntry(address, size)) == size % 0x1_0000
  {
    var low := size % 0x1_0000;
    Up48(size);
    Up48(low);
    assert Shl(size, 48) == Shl(low, 48) by {
      assert size == size / 0x1_0000 * 0x1_0000 + low;
      assert 0x1_0000_0000_0000 * size == size / 0x1_0000 * WORD + 0x1_0000_0000_0000 * low;
    }
    hide And, Shr, Or, Shl;
    EntryRoundTrip(address, low);
  }
}
