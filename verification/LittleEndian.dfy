/**
 Unsigned numbers as bytes, the lowest first.
 */
module LittleEndian {

  const WORD32: nat := 0x1_0000_0000

  function Little(v: nat, n: nat): (s: seq<nat>)
    ensures |s| == n
  {
    if n == 0 then [] else [v % 256] + Little(v / 256, n - 1)
  }

  function FromLittle(s: seq<nat>): (v: nat) {
    if s == [] then 0 else s[0] + 256 * FromLittle(s[1..])
  }

  function Capacity(n: nat): (c: nat) {
    if n == 0 then 1 else 256 * Capacity(n - 1)
  }

  lemma {:induction false} LittleRoundTrip(v: nat, n: nat)
    requires v < Capacity(n)
    ensures FromLittle(Little(v, n)) == v
  {
    if n > 0 {
      assert Little(v, n)[1..] == Little(v / 256, n - 1);
      LittleRoundTrip(v / 256, n - 1);
    }
  }

  lemma Capacities()
    ensures Capacity(4) == WORD32 && Capacity(8) == 0x1_0000_0000_0000_0000
  {
    assert Capacity(1) == 256;
    assert Capacity(2) == 65536;
    assert Capacity(3) == 16777216;
    assert Capacity(4) == WORD32;
    assert Capacity(5) == 256 * WORD32;
    assert Capacity(6) == 65536 * WORD32;
    assert Capacity(7) == 16777216 * WORD32;
  }
}
