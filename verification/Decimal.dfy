/** Decimal text: what `operator<<`, `lexical_cast<string>` and `sprintf` print for integers,
    and what `atoi` and `operator>>` read back. */
module Decimal {

  predicate IsDigit(c: char) {
    '0' <= c <= '9'
  }

  function DigitValue(c: char): (d: nat)
    requires IsDigit(c)
    ensures d < 10
  {
    c as int - '0' as int
  }

  function DigitChar(d: nat): (c: char)
    requires d < 10
    ensures IsDigit(c) && DigitValue(c) == d
  {
    ('0' as int + d) as char
  }

  predicate AllDigits(s: string) {
    forall i :: 0 <= i < |s| ==> IsDigit(s[i])
  }

  /** The number a run of digits stands for, most significant digit first. */
  function Value(s: string): nat
    requires AllDigits(s)
  {
    if s == [] then 0 else Value(s[..|s| - 1]) * 10 + DigitValue(s[|s| - 1])
  }

  /** An unsigned number in decimal, without leading zeros. */
  function NatText(n: nat): (s: string)
    ensures |s| > 0 && AllDigits(s) && Value(s) == n
    ensures DigitValue(s[|s| - 1]) == n % 10
    ensures |s| == 1 <==> n < 10
  {
    if n < 10 then
      var s := [DigitChar(n)];
      assert s[..0] == [];
      s
    else
      var front := NatText(n / 10);
      var s := front + [DigitChar(n % 10)];
      assert s[..|s| - 1] == front;
      s
  }

  /** A signed number in decimal. */
  function IntText(i: int): string {
    if i < 0 then "-" + NatText(-i) else NatText(i)
  }

  /** How many leading characters are digits: the greedy reach of the pattern `\d*`. */
  function DigitPrefix(s: string): (n: nat)
    ensures n <= |s| && AllDigits(s[..n])
    ensures n < |s| ==> !IsDigit(s[n])
  {
    if s == [] || !IsDigit(s[0]) then 0
    else
      var n := DigitPrefix(s[1..]);
      assert forall i :: 1 <= i < n + 1 ==> s[i] == s[1..][i - 1];
      n + 1
  }

  lemma {:induction false} DigitPrefixOf(digits: string, rest: string)
    requires AllDigits(digits)
    requires rest == [] || !IsDigit(rest[0])
    ensures DigitPrefix(digits + rest) == |digits|
  {
    if digits == [] {
      assert digits + rest == rest;
    } else {
      assert (digits + rest)[1..] == digits[1..] + rest;
      DigitPrefixOf(digits[1..], rest);
    }
  }

  /** The text that `[-]?\d+` matches at the start of `s`, as a length; 0 when it does not match. */
  function IntPrefix(s: string): (n: nat)
    ensures n <= |s|
  {
    if s != [] && s[0] == '-' then
      (if DigitPrefix(s[1..]) > 0 then 1 + DigitPrefix(s[1..]) else 0)
    else DigitPrefix(s)
  }

  /** The number such a text stands for. */
  function IntValue(s: string): int
    requires IntPrefix(s) == |s|
  {
    if s != [] && s[0] == '-' then
      assert s[1..][..|s| - 1] == s[1..];
      0 - Value(s[1..])
    else
      assert s[..|s|] == s;
      Value(s)
  }

  lemma SignedReads(digits: string, rest: string)
    requires digits != [] && AllDigits(digits)
    requires rest == [] || !IsDigit(rest[0])
    ensures IntPrefix(digits + rest) == |digits|
    ensures IntPrefix("-" + digits + rest) == 1 + |digits|
  {
    DigitPrefixOf(digits, rest);
    assert (digits + rest)[0] == digits[0];
    assert ("-" + digits + rest)[1..] == digits + rest;
  }

  lemma IntTextReads(i: int, rest: string)
    requires rest == [] || !IsDigit(rest[0])
    ensures IntPrefix(IntText(i) + rest) == |IntText(i)| > 0
    ensures IntPrefix(IntText(i)) == |IntText(i)| && IntValue(IntText(i)) == i
  {
    var digits := NatText(if i < 0 then -i else i);
    SignedReads(digits, rest);
    SignedReads(digits, []);
    assert digits + [] == digits && "-" + digits + [] == "-" + digits;
    if i < 0 {
      assert ("-" + digits)[1..] == digits;
    }
  }

  lemma IntTextInjective(i: int, j: int)
    requires IntText(i) == IntText(j)
    ensures i == j
  {
    IntTextReads(i, []);
    IntTextReads(j, []);
  }

  /** `%04d` of a number below ten thousand: exactly four digits. */
  function Fixed4(n: nat): (s: string)
    requires n < 10000
    ensures |s| == 4 && AllDigits(s) && Value(s) == n
  {
    var s := [DigitChar(n / 10 / 10 / 10), DigitChar(n / 10 / 10 % 10), DigitChar(n / 10 % 10), DigitChar(n % 10)];
    FourDigits(s);
    s
  }

  lemma FourDigits(s: string)
    requires |s| == 4 && AllDigits(s)
    ensures Value(s) == DigitValue(s[0]) * 1000 + DigitValue(s[1]) * 100 + DigitValue(s[2]) * 10 + DigitValue(s[3])
  {
    assert s[..3][..2] == s[..2] && s[..2][..1] == s[..1] && s[..1][..0] == [];
    assert Value(s[..1]) == DigitValue(s[0]);
    assert Value(s[..2]) == Value(s[..1]) * 10 + DigitValue(s[1]);
    assert Value(s[..3]) == Value(s[..2]) * 10 + DigitValue(s[2]);
  }

  predicate IsSpace(c: char) {
    c == ' ' || c == '\t' || c == '\n' || c == '\r' || c as int == 11 || c as int == 12
  }

  function SkipSpace(s: string): (t: string)
    ensures |t| <= |s|
  {
    if s != [] && IsSpace(s[0]) then SkipSpace(s[1..]) else s
  }

  /** C's `atoi`: leading white space, an optional sign, then the leading digits; 0 without digits. */
  function Atoi(s: string): int {
    var t := SkipSpace(s);
    if t != [] && t[0] == '-' then 0 - Value(t[1..][..DigitPrefix(t[1..])])
    else if t != [] && t[0] == '+' then Value(t[1..][..DigitPrefix(t[1..])])
    else Value(t[..DigitPrefix(t)])
  }

  lemma AtoiOfDigits(s: string)
    requires s != [] && AllDigits(s)
    ensures Atoi(s) == Value(s)
  {
    DigitPrefixOf(s, []);
    assert s + [] == s && s[..|s|] == s;
    assert IsDigit(s[0]);
  }

  lemma IntPrefixTight(s: string)
    ensures IntPrefix(s[..IntPrefix(s)]) == IntPrefix(s)
  {
    var n := IntPrefix(s);
    if s != [] && s[0] == '-' {
      if n > 0 {
        var t := s[1..];
        DigitPrefixOf(t[..n - 1], []);
        assert t[..n - 1] + [] == s[..n][1..];
      }
    } else {
      DigitPrefixOf(s[..n], []);
      assert s[..n] + [] == s[..n];
    }
  }

  /** What `stringstream >>` makes of a whole number: leading white space, then the longest number;
      0 without one. */
  function ReadInt(t: string): int {
    var u := SkipSpace(t);
    if IntPrefix(u) == 0 then 0
    else
      IntPrefixTight(u);
      IntValue(u[..IntPrefix(u)])
  }

  lemma IntTextShape(i: int)
    ensures IntText(i) != "" && !IsSpace(IntText(i)[0]) && !IsSpace(IntText(i)[|IntText(i)| - 1])
    ensures forall k :: 0 <= k < |IntText(i)| ==> IsDigit(IntText(i)[k]) || IntText(i)[k] == '-'
  {
    var digits := NatText(if i < 0 then -i else i);
    assert forall k :: 0 <= k < |digits| ==> IsDigit(digits[k]);
  }

  /** A printed integer is read back, with or without a blank in front of it. */
  lemma ReadIntText(i: int)
    ensures ReadInt(IntText(i)) == i && ReadInt(" " + IntText(i)) == i
  {
    IntTextShape(i);
    IntTextReads(i, "");
    var t := IntText(i);
    assert SkipSpace(t) == t;
    assert (" " + t)[1..] == t;
    assert SkipSpace(" " + t) == t;
    assert t[..|t|] == t && t + "" == t;
  }

  /** The same pair for whole-numbered reals. */
  function ShowWhole(r: real): string {
    IntText(r.Floor)
  }

  function ReadWhole(t: string): real {
    ReadInt(t) as real
  }

  predicate IsWhole(r: real) {
    r.Floor as real == r
  }
}
