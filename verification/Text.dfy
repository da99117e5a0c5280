/**
 Decimal numbers as text, and text split at a separator.
 */
module Text {

  datatype Parsed = Value(n: int) | Bad

  // ----- numbers

  function Digit(d: nat): (c: char)
    requires d < 10
  {
    "0123456789"[d]
  }

  predicate IsDigit(c: char) {
    '0' <= c <= '9'
  }

  predicate IsSpace(c: char) {
    c == ' ' || '\t' <= c <= '\r'
  }

  function ToString(n: nat): (s: string)
    ensures s != ""
  {
    if n < 10 then [Digit(n)] else ToString(n / 10) + [Digit(n % 10)]
  }

  function DigitOf(c: char): (d: nat)
    requires IsDigit(c)
    ensures d < 10
  {
    c as int - '0' as int
  }

  function DigitsValue(s: string): (n: nat)
    requires forall c | c in s :: IsDigit(c)
  {
    if s == "" then 0
    else
      assert s[|s| - 1] in s;
      10 * DigitsValue(s[..|s| - 1]) + DigitOf(s[|s| - 1])
  }

  function Skip(s: string): (r: string) {
    if s != "" && IsSpace(s[0]) then Skip(s[1..]) else s
  }

  predicate AllDigits(s: string) {
    s != "" && forall c | c in s :: IsDigit(c)
  }

  predicate InLong(n: int) {
    -0x8000_0000_0000_0000 <= n < 0x8000_0000_0000_0000
  }

  /**
   A whole decimal number: leading space and a sign are allowed, nothing may follow, and zero is
   written only as "0".
   */
  function Stol(s: string): (r: Parsed) {
    var t := Skip(s);
    var negative := t != "" && t[0] == '-';
    var digits := if t != "" && (t[0] == '-' || t[0] == '+') then t[1..] else t;
    if !AllDigits(digits) then Bad
    else
      var v: int := DigitsValue(digits);
      var n := if negative then -v else v;
      if !InLong(n) || (n == 0 && s != "0") then Bad else Value(n)
  }

  lemma {:induction false} ToStringDigits(n: nat)
    ensures forall c | c in ToString(n) :: IsDigit(c)
    ensures DigitsValue(ToString(n)) == n
    ensures n > 0 ==> ToString(n)[0] != '0'
  {
    if n < 10 {
      assert [Digit(n)][..0] == "";
    } else {
      ToStringDigits(n / 10);
      var s := ToString(n / 10);
      assert (s + [Digit(n % 10)])[..|s|] == s;
    }
  }

  /** Printing a number and parsing it back. */
  lemma StolToString(n: nat)
    requires n < 0x8000_0000_0000_0000
    ensures Stol(ToString(n)) == Value(n)
  {
    ToStringDigits(n);
    var s := ToString(n);
    assert s[0] in s;
    assert Skip(s) == s;
    if n == 0 { assert s == "0"; }
  }

  /** Space, an optional sign and digits that denote n. */
  ghost predicate Denotes(s: string, space: string, sign: string, digits: string, n: int) {
    && s == space + sign + digits && (forall c | c in space :: IsSpace(c)) && (sign == "" || sign == "+" || sign == "-")
    && AllDigits(digits) && var v: int := DigitsValue(digits); n == if sign == "-" then -v else v
  }

  lemma {:induction false} SkipIs(s: string) returns (k: nat)
    ensures k <= |s| && Skip(s) == s[k..] && forall i | 0 <= i < k :: IsSpace(s[i])
  {
    hide IsSpace;
    if s != "" && IsSpace(s[0]) {
      k := SkipIs(s[1..]);
      k := k + 1;
    } else {
      k := 0;
    }
  }

  lemma {:induction false} SkipSpace(space: string, t: string)
    requires (forall c | c in space :: IsSpace(c)) && t != "" && !IsSpace(t[0])
    ensures Skip(space + t) == t
  {
    if space == "" {
      assert space + t == t;
    } else {
      assert (space + t)[1..] == space[1..] + t;
      SkipSpace(space[1..], t);
    }
  }

  /** A text parses to n exactly if it is space, an optional sign and digits that denote n, n is a long, and a zero is just "0". */
  lemma StolExactly(s: string, n: int)
    ensures Stol(s) == Value(n) <==>
            InLong(n) && (n == 0 ==> s == "0") && exists space, sign, digits :: Denotes(s, space, sign, digits, n)
  {
    if Stol(s) == Value(n) {
      var k := SkipIs(s);
      var space, t := s[..k], s[k..];
      var signed := t[0] == '-' || t[0] == '+';
      var sign, digits := if signed then t[..1] else "", if signed then t[1..] else t;
      assert t == sign + digits && s == space + sign + digits;
      assert Denotes(s, space, sign, digits, n);
    }
    forall space, sign, digits | Denotes(s, space, sign, digits, n) && InLong(n) && (n == 0 ==> s == "0")
      ensures Stol(s) == Value(n)
    {
      DenotedParsed(s, space, sign, digits, n);
    }
  }

  lemma DenotedParsed(s: string, space: string, sign: string, digits: string, n: int)
    requires Denotes(s, space, sign, digits, n) && InLong(n) && (n == 0 ==> s == "0")
    ensures Stol(s) == Value(n)
  {
    hide DigitsValue;
    var t := sign + digits;
    assert s == space + t && digits[0] in digits;
    assert t[0] == (if sign == "" then digits[0] else sign[0]);
    SkipSpace(space, t);
    assert sign != "" ==> t[1..] == digits;
    assert sign == "" ==> t == digits;
  }

  // ----- splitting

  /** Index of the first c, or the length. */
  function Find(s: string, c: char): (k: nat)
    ensures k <= |s| && (k < |s| ==> s[k] == c) && forall i | 0 <= i < k :: s[i] != c
  {
    if s == "" || s[0] == c then 0 else 1 + Find(s[1..], c)
  }

  /** The parts between separators; an empty part at the very end is dropped. */
  function Split(s: string, sep: char): (r: seq<string>)
    decreases |s|
  {
    if s == "" then []
    else
      var k := Find(s, sep);
      if k == |s| then [s] else [s[..k]] + Split(s[k + 1..], sep)
  }

  function Join(items: seq<string>, sep: char): (s: string) {
    if items == [] then "" else if |items| == 1 then items[0] else items[0] + [sep] + Join(items[1..], sep)
  }

  ghost predicate Clean(items: seq<string>, sep: char) {
    forall i | 0 <= i < |items| :: items[i] != "" && sep !in items[i]
  }

  /** Joining and splitting again. */
  lemma {:induction false} SplitJoin(items: seq<string>, sep: char)
    requires Clean(items, sep)
    ensures Split(Join(items, sep), sep) == items
  {
    if |items| == 1 {
      FindClean(items[0], "", sep);
      assert items[0] + "" == items[0];
    } else if |items| > 1 {
      var s, rest := Join(items, sep), Join(items[1..], sep);
      assert s == items[0] + ([sep] + rest);
      FindClean(items[0], [sep] + rest, sep);
      assert s[..|items[0]|] == items[0] && s[|items[0]| + 1..] == rest;
      assert forall i | 0 <= i < |items[1..]| :: items[1..][i] == items[i + 1];
      SplitJoin(items[1..], sep);
    }
  }

  /** No part holds a separator, and joined again they are the text, but for one separator at its very end. */
  lemma {:induction false} SplitExactly(s: string, sep: char)
    ensures forall i | 0 <= i < |Split(s, sep)| :: sep !in Split(s, sep)[i]
    ensures s == Join(Split(s, sep), sep) + if s != "" && s[|s| - 1] == sep then [sep] else []
    ensures s == "" <==> Split(s, sep) == []
    decreases |s|
  {
    hide Join;
    var k := Find(s, sep);
    if s == "" {
      JoinFirst("", [], sep);
    } else if k == |s| {
      JoinFirst(s, [], sep);
      assert Split(s, sep) == [s] + [];
    } else {
      var rest := s[k + 1..];
      SplitExactly(rest, sep);
      JoinFirst(s[..k], Split(rest, sep), sep);
      Rejoined(s, k, rest, Split(rest, sep), sep);
    }
  }

  lemma JoinFirst(a: string, items: seq<string>, sep: char)
    ensures Join([a] + items, sep) == if items == [] then a else a + [sep] + Join(items, sep)
    ensures Join([], sep) == ""
  {
    assert ([a] + items)[1..] == items;
  }

  lemma Rejoined(s: string, k: nat, rest: string, items: seq<string>, sep: char)
    requires k < |s| && s[k] == sep && rest == s[k + 1..] && (rest == "" <==> items == [])
    requires rest == Join(items, sep) + if rest != "" && rest[|rest| - 1] == sep then [sep] else []
    ensures s == (if items == [] then s[..k] else s[..k] + [sep] + Join(items, sep)) + if s[|s| - 1] == sep then [sep] else []
  {
    hide Join;
    assert s == s[..k] + [sep] + rest;
    if rest != "" { assert rest[|rest| - 1] == s[|s| - 1]; }
  }

  lemma FindClean(a: string, b: string, c: char)
    requires c !in a && (b == "" || b[0] == c)
    ensures Find(a + b, c) == |a|
  {
    assert forall i | 0 <= i < |a| :: (a + b)[i] == a[i] && a[i] in a;
    assert b != "" ==> (a + b)[|a|] == b[0];
  }

  lemma SplitStep(str: string, sep: char, pos1: nat, pos2: nat)
    requires pos1 <= pos2 <= |str| && pos2 - pos1 == Find(str[pos1..], sep)
    ensures pos2 < |str| ==> Split(str[pos1..], sep) == [str[pos1..pos2]] + Split(str[pos2 + 1..], sep)
    ensures pos2 == |str| ==> Split(str[pos1..], sep) == if pos1 == |str| then [] else [str[pos1..]]
  {
    var s := str[pos1..];
    if pos2 < |str| {
      assert s[..pos2 - pos1] == str[pos1..pos2] && s[pos2 - pos1 + 1..] == str[pos2 + 1..];
    }
  }

  /** Split by walking from separator to separator. */
  method SplitStr(str: string, sep: char) returns (result: seq<string>)
    ensures result == Split(str, sep)
  {
    hide Split, Find;
    result := [];
    var pos1 := 0;
    var pos2 := FindFrom(str, sep, 0);
    assert str[0..] == str;
    while pos2 != |str|
      invariant pos1 <= pos2 <= |str| && pos2 - pos1 == Find(str[pos1..], sep)
      invariant Split(str, sep) == result + Split(str[pos1..], sep)
      decreases |str| - pos1
    {
      SplitStep(str, sep, pos1, pos2);
      result := result + [str[pos1..pos2]];
      pos1 := pos2 + 1;
      pos2 := FindFrom(str, sep, pos1);
    }
    SplitStep(str, sep, pos1, pos2);
    if pos1 != |str| {
      result := result + [str[pos1..]];
    }
  }

  /** Index of the first separator from pos on, or the length. */
  method FindFrom(str: string, sep: char, pos: nat) returns (k: nat)
    requires pos <= |str|
    ensures pos <= k <= |str| && k - pos == Find(str[pos..], sep)
  {
    k := pos;
    while k < |str| && str[k] != sep
      invariant pos <= k <= |str| && Find(str[pos..], sep) == k - pos + Find(str[k..], sep)
    {
      assert str[k..][1..] == str[k + 1..];
      k := k + 1;
    }
    assert str[k..] == "" || str[k..][0] == sep;
  }
}
