/**
 The 16-byte header in front of a block of an allocator whose addresses are not aligned: its
 bytes in the managed memory, and what is read back from them.
 */
module MemHeader {
  import opened Multiples
  import opened LittleEndian

  /** The managed memory, byte by byte. */
  type Bytes = map<nat, nat>

  const META: nat := 16

  function Canary(reserved: bool): (c: seq<nat>)
    ensures |c| == 4
  {
    // "#c_r" when the header has its own 16 bytes, "#c_a" when the rounding leaves room for it
    if reserved then [35, 99, 95, 114] else [35, 99, 95, 97]
  }

  // ----- loads and stores

  ghost predicate Mapped(mem: Bytes, a: nat, n: nat) {
    forall x | a <= x < a + n :: x in mem
  }

  function Load(mem: Bytes, a: nat, n: nat): (s: seq<nat>)
    requires Mapped(mem, a, n)
    ensures |s| == n
  {
    seq(n, i requires 0 <= i < n => mem[a + i])
  }

  function Store(mem: Bytes, a: nat, s: seq<nat>): (mem': Bytes)
    ensures mem'.Keys == mem.Keys
  {
    map x | x in mem :: if a <= x < a + |s| then s[x - a] else mem[x]
  }

  lemma LoadStored(mem: Bytes, a: nat, s: seq<nat>)
    requires Mapped(mem, a, |s|)
    ensures Load(Store(mem, a, s), a, |s|) == s
  {
  }

  lemma LoadOther(mem: Bytes, a: nat, s: seq<nat>, b: nat, n: nat)
    requires Mapped(mem, b, n) && (b + n <= a || a + |s| <= b)
    ensures Load(Store(mem, a, s), b, n) == Load(mem, b, n)
  {
  }

  lemma LoadPart(mem: Bytes, a: nat, n: nat, i: nat, k: nat)
    requires Mapped(mem, a, n) && i + k <= n
    ensures Load(mem, a + i, k) == Load(mem, a, n)[i..i + k]
  {
  }

  // ----- headers

  /** The rounding left no room for the next block's header. */
  predicate Needs(size: nat, unit: nat)
    requires unit > 0
  {
    RoundUp(size, unit) - size < META
  }

  /** Bytes set aside for a request: whole blocks, and 16 more if the rounding left less than that. */
  function Reserve(size: nat, unit: nat): (n: nat)
    requires unit > 0
  {
    RoundUp(size, unit) + if Needs(size, unit) then META else 0
  }

  function Units32(size: nat, unit: nat): (u: nat)
    requires unit > 0
    ensures u < WORD32
  {
    (RoundUp(size, unit) / unit) % 0x1_0000_0000
  }

  function HeaderBytes(size: nat, unit: nat): (s: seq<nat>)
    requires unit > 0
    ensures |s| == META
  {
    Canary(Needs(size, unit)) + Little(Units32(size, unit), 4) + Little(size, 8)
  }

  /** The length computed from a header, in 32-bit arithmetic. */
  function Recovered(reserved: bool, units: nat, unit: nat): (n: nat)
    ensures n < WORD32
  {
    (unit * units + if reserved then META else 0) % 0x1_0000_0000
  }

  /** The header gives the reserved length back exactly if that is below 4 GiB. */
  lemma RecoversBelow4GiB(size: nat, unit: nat)
    requires 0 < unit && size + unit <= WORD64
    ensures Recovered(Needs(size, unit), Units32(size, unit), unit) == Reserve(size, unit) <==> Reserve(size, unit) < WORD32
  {
    var n := RoundUp(size, unit);
    RoundedUp(size, unit);
    MultipleTimes(n, unit);
    if Reserve(size, unit) < WORD32 {
      DivNoMore(n, unit);
      assert n / unit < WORD32;
      assert Units32(size, unit) == n / unit;
      assert unit * (n / unit) == n;
    }
  }

  lemma DivNoMore(n: nat, unit: nat)
    requires unit > 0
    ensures n / unit <= n
  {
    assert n == n / unit * unit + n % unit;
    if n / unit > 0 { MulAtLeast(unit, n / unit); }
  }

  /** The header in front of the block at s is the one written for this size. */
  ghost predicate Intact(mem: Bytes, s: nat, size: nat, unit: nat)
    requires unit > 0
  {
    s >= META && Mapped(mem, s - META, META) && Load(mem, s - META, META) == HeaderBytes(size, unit)
  }

  /** Reading the fields of an intact header. */
  lemma ReadHeader(mem: Bytes, s: nat, size: nat, unit: nat)
    requires unit > 0 && Intact(mem, s, size, unit) && size < WORD64
    ensures Mapped(mem, s - 16, 4) && Mapped(mem, s - 12, 4) && Mapped(mem, s - 8, 8)
    ensures Load(mem, s - 16, 4) == Canary(Needs(size, unit)) == if Needs(size, unit) then [35, 99, 95, 114] else [35, 99, 95, 97]
    ensures FromLittle(Load(mem, s - 12, 4)) == Units32(size, unit)
    ensures FromLittle(Load(mem, s - 8, 8)) == size
  {
    var h := HeaderBytes(size, unit);
    var c, u, l := Canary(Needs(size, unit)), Little(Units32(size, unit), 4), Little(size, 8);
    hide Little, FromLittle, Units32, Needs, RoundUp, Capacity;
    LoadPart(mem, s - 16, 16, 0, 4);
    LoadPart(mem, s - 16, 16, 4, 4);
    LoadPart(mem, s - 16, 16, 8, 8);
    assert h[0..4] == c && h[4..8] == u && h[8..16] == l;
    Capacities();
    LittleRoundTrip(Units32(size, unit), 4);
    LittleRoundTrip(size, 8);
  }
}
