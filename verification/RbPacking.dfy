/**
 A tree node's parent and colour in one 64-bit word: the colour in the lowest bit, the parent in
 all but the lowest two.
 */
module RbPacking {
  import opened Bits

  function GetParent(w: nat): (p: nat) {
    And(w, WORD - 4)
  }

  function GetColor(w: nat): (c: nat) {
    And(w, 1)
  }

  function SetParent(w: nat, p: nat): (w': nat) {
    Or(And(w, 3), p)
  }

  function SetColor(w: nat, c: nat): (w': nat) {
    Or(And(w, WORD - 2), c)
  }

  lemma AndFours(a: nat, m: nat)
    ensures And(a, 4 * m) % 4 == 0
  {
    assert 4 * m / 2 == 2 * m && 2 * m / 2 == m;
    assert And(a / 2, 2 * m) % 2 == 0;
  }

  function Low4(a: nat): (r: nat)
    ensures r < 4
  {
    a % 4
  }

  function Low2(a: nat): (r: nat)
    ensures r < 2
  {
    a % 2
  }

  /** The low two bits of a number given by its quarter and those bits. */
  lemma Known(k: nat, h: nat, l: nat)
    requires h < 2 && l < 2
    ensures Low4(4 * k + 2 * h + l) == 2 * h + l && Low2(4 * k + 2 * h + l) == l
  {
    assert (4 * k + (2 * h + l)) % 4 == 2 * h + l;
    assert (2 * (2 * k + h) + l) % 2 == l;
  }

  lemma Split(a: nat) returns (k: nat, h: nat, l: nat)
    ensures h < 2 && l < 2 && a == 4 * k + 2 * h + l && Low4(a) == 2 * h + l && Low2(a) == l
  {
    k, h, l := a / 4, a % 4 / 2, a % 4 % 2;
    assert a % 4 == 2 * h + l;
    Known(k, h, l);
  }

  lemma Quarter(a: nat)
    ensures Up(Shr(a, 2), 2) == a - Low4(a) && Up(Shr(a, 1), 1) == a - Low2(a)
  {
    assert Pow2(2) == 4 && Pow2(1) == 2;
    UpShrBounds(a, 2);
    UpShrBounds(a, 1);
    assert Up(Shr(a, 2), 1) == 2 * Shr(a, 2) && Up(Shr(a, 2), 2) == 4 * Shr(a, 2);
  }

  lemma LowBits(a: nat)
    ensures And(a, 3) == Low4(a) && And(a, 1) == Low2(a)
  {
    assert Pow2(2) == 4 && Pow2(1) == 2;
    hide And, Low4, Low2;
    AndLowMask(a, 2);
    AndLowMask(a, 1);
    Quarter(a);
  }

  lemma HighBits(a: nat)
    requires a < WORD
    ensures And(a, WORD - 4) == a - Low4(a) && And(a, WORD - 2) == a - Low2(a)
  {
    Pow2Word();
    assert Pow2(2) == 4 && Pow2(1) == 2;
    hide And, Low4, Low2;
    AndHighMask(a, 64, 2);
    AndHighMask(a, 64, 1);
    Quarter(a);
  }

  lemma {:induction false} OrCommutes(a: nat, b: nat)
    ensures Or(a, b) == Or(b, a)
  {
    if a != 0 && b != 0 { OrCommutes(a / 2, b / 2); }
  }

  lemma OrLow(p: nat, b: nat)
    ensures Low4(p) == 0 && b < 4 ==> Or(p, b) == p + b
    ensures Low2(p) == 0 && b < 2 ==> Or(p, b) == p + b
  {
    assert Pow2(2) == 4 && Pow2(1) == 2;
    hide Or, Low4, Low2;
    Quarter(p);
    if b < 4 { OrDisjoint(Shr(p, 2), b, 2); }
    if b < 2 { OrDisjoint(Shr(p, 1), b, 1); }
  }

  lemma MaskIsFours(x: nat)
    ensures Low4(And(x, WORD - 4)) == 0
  {
    hide And;
    AndFours(x, (WORD - 4) / 4);
  }

  /** A parent that is set is read back, and the colour kept, exactly if the parent is a multiple of 4. */
  lemma ParentComesBack(w: nat, p: nat)
    requires w < WORD && p < WORD
    ensures GetParent(SetParent(w, p)) == p && GetColor(SetParent(w, p)) == GetColor(w) <==> Low4(p) == 0
  {
    hide And, Or, Low4, Low2;
    LowBits(w);
    var k, h, l := Split(w);
    var k', h', l' := Split(p);
    if Low4(p) == 0 {
      OrCommutes(And(w, 3), p);
      OrLow(p, Low4(w));
      Known(k', h, l);
      assert p + Low4(w) == 4 * k' + 2 * h + l < WORD;
      HighBits(p + Low4(w));
      LowBits(p + Low4(w));
    } else {
      MaskIsFours(SetParent(w, p));
    }
  }

  /** A colour that is set is read back, and the parent stays. */
  lemma ColorComesBack(w: nat, c: nat)
    requires w < WORD && c < 2
    ensures GetColor(SetColor(w, c)) == c && GetParent(SetColor(w, c)) == GetParent(w)
  {
    hide And, Or, Low4, Low2;
    var k, h, l := Split(w);
    HighBits(w);
    Known(k, h, 0);
    Known(k, h, c);
    OrLow(4 * k + 2 * h, c);
    assert w - Low2(w) + c == 4 * k + 2 * h + c < WORD;
    HighBits(4 * k + 2 * h + c);
    LowBits(4 * k + 2 * h + c);
  }
}
