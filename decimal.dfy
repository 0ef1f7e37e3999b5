/** Decimal text of integers: how JavaScript's `String(n)` and
    `JSON.stringify(n)` write an integer, how a database reads an integer
    literal, and how `parseInt` reads a leading run of digits. */
module Decimal {
  import opened Wrappers
  import Js

  predicate IsDigit(c: char) {
    '0' <= c <= '9'
  }

  predicate AllDigits(s: string) {
    forall i :: 0 <= i < |s| ==> IsDigit(s[i])
  }

  function DigitChar(d: nat): (c: char)
    requires d < 10
    ensures IsDigit(c) && c as int - '0' as int == d
  {
    ('0' as int + d) as char
  }

  function DigitValue(c: char): (d: nat)
    requires IsDigit(c)
    ensures d < 10
  {
    c as int - '0' as int
  }

  /** The decimal text of a natural number, without leading zeros. */
  function NatText(n: nat): (s: string)
    ensures s != [] && AllDigits(s)
    ensures n >= 10 ==> s[0] != '0'
    decreases n
  {
    if n < 10 then [DigitChar(n)] else NatText(n / 10) + [DigitChar(n % 10)]
  }

  /** `String(n)` for an integer `n`. */
  function IntText(n: int): (s: string)
    ensures s != [] && (s[0] == '-' || IsDigit(s[0]))
    ensures forall i :: 0 <= i < |s| ==> s[i] == '-' || IsDigit(s[i])
  {
    if n < 0 then "-" + NatText(-n) else NatText(n)
  }

  /** The value of a string of digits. */
  function DigitsValue(s: string): nat
    requires AllDigits(s)
    decreases |s|
  {
    if s == [] then 0 else DigitsValue(s[..|s| - 1]) * 10 + DigitValue(s[|s| - 1])
  }

  lemma {:induction false} DigitsValueOfNatText(n: nat)
    ensures DigitsValue(NatText(n)) == n
    decreases n
  {
    if n >= 10 {
      var s := NatText(n / 10) + [DigitChar(n % 10)];
      assert s[..|s| - 1] == NatText(n / 10);
      DigitsValueOfNatText(n / 10);
    }
  }

  /** An integer literal as the database reads it from text: an optional
      minus sign, then one or more digits; anything else is an error. */
  function ParseIntLiteral(s: string): Option<int> {
    if |s| > 1 && s[0] == '-' && AllDigits(s[1..]) then Some(-(DigitsValue(s[1..]) as int))
    else if s != [] && AllDigits(s) then Some(DigitsValue(s))
    else None
  }

  /** Reading back the text of an integer gives the integer. */
  lemma IntTextRoundTrip(n: int)
    ensures ParseIntLiteral(IntText(n)) == Some(n)
  {
    if n < 0 {
      var s := IntText(n);
      assert s[1..] == NatText(-n);
      DigitsValueOfNatText(-n);
    } else {
      DigitsValueOfNatText(n);
    }
  }

  /** The value of `c` as a digit in the bases `parseInt` accepts: '0'..'9'
      are 0..9, and a letter of either case counts from 10 for 'a'. */
  function DigitOf(c: char): (r: Option<nat>)
    ensures r.Some? ==> r.value < 36
  {
    if '0' <= c <= '9' then Some(c as int - '0' as int)
    else if 'a' <= c <= 'z' then Some(c as int - 'a' as int + 10)
    else if 'A' <= c <= 'Z' then Some(c as int - 'A' as int + 10)
    else None
  }

  /** `c` is a digit of base `radix`. */
  predicate InRadix(c: char, radix: nat) {
    DigitOf(c).Some? && DigitOf(c).value < radix
  }

  predicate AllInRadix(s: string, radix: nat) {
    forall i :: 0 <= i < |s| ==> InRadix(s[i], radix)
  }

  /** The length of the longest prefix of `s` made of digits of base `radix`. */
  function Run(s: string, radix: nat): (k: nat)
    ensures k <= |s| && AllInRadix(s[..k], radix) && (k == |s| || !InRadix(s[k], radix))
  {
    if s != [] && InRadix(s[0], radix) then
      var k := 1 + Run(s[1..], radix);
      assert s[..k] == [s[0]] + s[1..][..k - 1];
      k
    else 0
  }

  /** The value of a string of digits of base `radix`, most significant
      first. */
  function RadixValue(s: string, radix: nat): nat
    requires AllInRadix(s, radix)
    decreases |s|
  {
    if s == [] then 0 else RadixValue(s[..|s| - 1], radix) * radix + DigitOf(s[|s| - 1]).value
  }

  /** Decimal digits are the digits of base 10, and their values agree. */
  lemma {:induction false} DecimalRadixValue(s: string)
    requires AllDigits(s)
    ensures AllInRadix(s, 10) && RadixValue(s, 10) == DigitsValue(s)
    decreases |s|
  {
    if s != [] {
      DecimalRadixValue(s[..|s| - 1]);
    }
  }

  /** `t` without its leading sign character, if it has one. */
  function SignFree(t: string): string {
    if t != [] && (t[0] == '-' || t[0] == '+') then t[1..] else t
  }

  /** With no radix argument, `parseInt` reads a text starting "0x" or "0X"
      as hexadecimal. */
  predicate HasHexPrefix(u: string) {
    |u| >= 2 && u[0] == '0' && (u[1] == 'x' || u[1] == 'X')
  }

  function Radix(u: string): nat {
    if HasHexPrefix(u) then 16 else 10
  }

  /** `u` without its "0x" prefix, if it has one. */
  function Unprefixed(u: string): string {
    if HasHexPrefix(u) then u[2..] else u
  }

  /** What `parseInt(s)` reads its digits from: `s` after leading white
      space, a sign and a "0x" prefix. */
  function Body(s: string): string {
    Unprefixed(SignFree(Js.TrimStart(s)))
  }

  /** The base `parseInt(s)` reads in: 16 after a "0x" prefix, else 10. */
  function BaseOf(s: string): nat {
    Radix(SignFree(Js.TrimStart(s)))
  }

  /** `s` carries a minus sign after its leading white space. */
  predicate Negative(s: string) {
    var t := Js.TrimStart(s);
    t != [] && t[0] == '-'
  }

  /** `parseInt(s)` with no radix argument: skip leading white space, read
      an optional sign, then an optional "0x"/"0X" prefix that selects
      base 16 (base 10 otherwise), then the longest run of digits of that
      base. `None` stands for NaN: the run is empty. */
  function ParseIntPrefix(s: string): (r: Option<int>)
    ensures r.None? <==> Run(Body(s), BaseOf(s)) == 0
    ensures r.Some? && r.value != 0 ==> (r.value < 0 <==> Negative(s))
  {
    var w := Body(s);
    var radix := BaseOf(s);
    var k := Run(w, radix);
    if k == 0 then None
    else
      var v := RadixValue(w[..k], radix) as int;
      Some(if Negative(s) then -v else v)
  }

  /** The digit run of a string of decimal digits is the whole string. */
  lemma {:induction false} RunOfDigits(u: string)
    requires AllDigits(u)
    ensures Run(u, 10) == |u|
    decreases |u|
  {
    if u != [] {
      RunOfDigits(u[1..]);
    }
  }

  /** A decimal body of digits reads as its value, negated after '-'. */
  lemma ParseIntOfDecimalBody(s: string)
    requires Body(s) != [] && AllDigits(Body(s)) && BaseOf(s) == 10
    ensures ParseIntPrefix(s) == Some(if Negative(s) then -(DigitsValue(Body(s)) as int) else DigitsValue(Body(s)))
  {
    var u := Body(s);
    RunOfDigits(u);
    assert u[..|u|] == u;
    DecimalRadixValue(u);
  }

  /** How `parseInt` sees the text of an integer: no white space, no "0x",
      a minus sign exactly for a negative number, then its digits. */
  lemma IntTextParts(n: int)
    ensures Body(IntText(n)) == NatText(if n < 0 then -n else n)
    ensures BaseOf(IntText(n)) == 10
    ensures Negative(IntText(n)) <==> n < 0
  {
    var s := IntText(n);
    assert !Js.IsJsSpace(s[0]);
    assert Js.TrimStart(s) == s;
    var u := NatText(if n < 0 then -n else n);
    assert SignFree(s) == u;
    assert !HasHexPrefix(u);
  }

  /** `parseInt` applied to the text of an integer gives that integer back. */
  lemma ParseIntPrefixOfIntText(n: int)
    ensures ParseIntPrefix(IntText(n)) == Some(n)
  {
    IntTextParts(n);
    ParseIntOfDecimalBody(IntText(n));
    DigitsValueOfNatText(if n < 0 then -n else n);
  }

  /** A "0x" prefix followed by hexadecimal digits reads as their value in
      base 16; a bare "0x" is NaN. */
  lemma ParseIntPrefixOfHex(d: string)
    requires AllInRadix(d, 16)
    ensures d != [] ==> ParseIntPrefix("0x" + d) == Some(RadixValue(d, 16))
    ensures d == [] ==> ParseIntPrefix("0x" + d).None?
  {
    var s := "0x" + d;
    assert !Js.IsJsSpace(s[0]);
    assert Js.TrimStart(s) == s;
    assert SignFree(s) == s;
    assert HasHexPrefix(s) && Unprefixed(s) == d;
    assert Body(s) == d && BaseOf(s) == 16 && !Negative(s);
    RunOfHexDigits(d);
    assert d[..|d|] == d;
  }

  /** The digit run of a string of base-16 digits is the whole string. */
  lemma {:induction false} RunOfHexDigits(d: string)
    requires AllInRadix(d, 16)
    ensures Run(d, 16) == |d|
    decreases |d|
  {
    if d != [] {
      RunOfHexDigits(d[1..]);
    }
  }

  /** "0x10" reads as sixteen. */
  lemma ParseIntHexExample()
    ensures ParseIntPrefix("0x10") == Some(16)
  {
    var t := "0x10";
    assert !Js.IsJsSpace(t[0]);
    assert Js.TrimStart(t) == t;
    assert SignFree(t) == t;
    assert Unprefixed(t) == "10";
    assert Body(t) == "10" && BaseOf(t) == 16 && !Negative(t);
    RunOfHexDigits("10");
    assert "10"[..2] == "10";
    assert RadixValue("10", 16) == 16 by {
      assert "10"[..1] == "1";
      assert "1"[..0] == "";
    }
  }

  /** A "0x" with no digits is NaN. */
  lemma ParseIntEmptyHexExample()
    ensures ParseIntPrefix("0x").None?
  {
    var t := "0x";
    assert !Js.IsJsSpace(t[0]);
    assert Js.TrimStart(t) == t;
    assert SignFree(t) == t;
    assert Unprefixed(t) == "";
    assert Body(t) == "" && BaseOf(t) == 16;
  }

  /** The prefix may follow a sign, in either case. */
  lemma ParseIntSignedHexExample()
    ensures ParseIntPrefix("-0X1f") == Some(-31)
  {
    var t := "-0X1f";
    assert !Js.IsJsSpace(t[0]);
    assert Js.TrimStart(t) == t;
    assert SignFree(t) == "0X1f";
    assert Unprefixed("0X1f") == "1f";
    assert Body(t) == "1f" && BaseOf(t) == 16 && Negative(t);
    RunOfHexDigits("1f");
    assert "1f"[..2] == "1f";
    assert RadixValue("1f", 16) == 31 by {
      assert "1f"[..1] == "1";
      assert "1"[..0] == "";
    }
  }

  /** Reading stops at the first character that is not a digit. */
  lemma ParseIntTrailingExample()
    ensures ParseIntPrefix("12abc") == Some(12)
  {
    var e := "12abc";
    assert !Js.IsJsSpace(e[0]);
    assert Js.TrimStart(e) == e;
    assert SignFree(e) == e && !HasHexPrefix(e);
    assert Body(e) == e && BaseOf(e) == 10 && !Negative(e);
    assert Run(e, 10) == 2 by {
      assert e[1..] == "2abc" && "2abc"[1..] == "abc";
    }
    assert e[..2] == "12";
    assert RadixValue("12", 10) == 12 by {
      assert "12"[..1] == "1";
      assert "1"[..0] == "";
    }
  }

  /** A "0x" prefix followed by no hexadecimal digit is NaN. */
  lemma ParseIntBadHexExample()
    ensures ParseIntPrefix("0xg").None?
  {
    var g := "0xg";
    assert !Js.IsJsSpace(g[0]);
    assert Js.TrimStart(g) == g;
    assert SignFree(g) == g && Unprefixed(g) == "g";
    assert Body(g) == "g" && BaseOf(g) == 16;
  }
}
