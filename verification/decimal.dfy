/** JavaScript `parseFloat` over decimal text, as a partial function to the
    reals: leading whitespace is skipped, then the LONGEST prefix that reads as
    a signed decimal literal (digits, optional fraction, optional exponent) is
    taken and the rest ignored; `None` stands for `NaN`. The literal
    `Infinity` and floating-point rounding are not modelled. Also the decimal
    rendering of a natural number, which the source gets from template
    strings. */
module Decimal {
  import opened Wrappers
  import Text

  predicate IsDigit(c: char) {
    '0' <= c <= '9'
  }

  function DigitValue(c: char): nat
    requires IsDigit(c)
  {
    c as int - '0' as int
  }

  function DigitChar(n: nat): (c: char)
    requires n < 10
    ensures IsDigit(c) && DigitValue(c) == n
  {
    ('0' as int + n) as char
  }

  predicate AllDigits(s: string) {
    forall i :: 0 <= i < |s| ==> IsDigit(s[i])
  }

  /** The value of a string of decimal digits (most significant first). */
  function DigitsValue(s: string): nat
    requires AllDigits(s)
  {
    if s == [] then 0 else 10 * DigitsValue(s[..|s| - 1]) + DigitValue(s[|s| - 1])
  }

  /** Length of the longest all-digit prefix of `s`. */
  function LeadingDigits(s: string): (n: nat)
    ensures n <= |s| && AllDigits(s[..n])
    ensures n == |s| || !IsDigit(s[n])
  {
    if s != [] && IsDigit(s[0]) then
      var k := LeadingDigits(s[1..]);
      assert s[..k + 1] == [s[0]] + s[1..][..k];
      k + 1
    else 0
  }

  function Pow10(n: nat): (r: real)
    ensures r >= 1.0
  {
    if n == 0 then 1.0 else 10.0 * Pow10(n - 1)
  }

  /** The signed exponent of an exponent part `e[+-]digits` at the start of
      `s`, or 0 when `s` does not start with a complete one (JavaScript then
      stops the literal before the `e`). */
  function ExponentPart(s: string): int {
    if |s| > 0 && (s[0] == 'e' || s[0] == 'E') then
      var u := s[1..];
      var negative := |u| > 0 && u[0] == '-';
      var v := if |u| > 0 && (u[0] == '-' || u[0] == '+') then u[1..] else u;
      var k := LeadingDigits(v);
      if k == 0 then 0
      else if negative then -(DigitsValue(v[..k]) as int) else DigitsValue(v[..k]) as int
    else 0
  }

  /** The unsigned value of the longest decimal literal at the start of `u`
      (no sign), or `None` when `u` starts with neither a digit nor a point
      followed by a digit. */
  function UnsignedPrefix(u: string): Option<real> {
    var ni := LeadingDigits(u);
    var rest := u[ni..];
    var hasPoint := |rest| > 0 && rest[0] == '.';
    var nf := if hasPoint then LeadingDigits(rest[1..]) else 0;
    var digits := u[..ni] + (if hasPoint then rest[1..][..nf] else "");
    var after := if hasPoint then rest[1 + nf..] else rest;
    if ni + nf == 0 then None
    else
      Some(Scale(DigitsValue(digits) as real / Pow10(nf), ExponentPart(after)))
  }

  /** `m` times ten to the power `e`. */
  function Scale(m: real, e: int): (r: real)
    ensures m >= 0.0 ==> r >= 0.0
    ensures e == 0 ==> r == m
  {
    if e >= 0 then m * Pow10(e) else m / Pow10(-e)
  }

  /** JavaScript `parseFloat(s)`, with `None` for `NaN`. */
  function ParseFloat(s: string): (r: Option<real>)
    ensures r.Some? ==> exists i :: 0 <= i < |s| && IsDigit(s[i])
  {
    var t := Text.TrimStart(s);
    var negative := |t| > 0 && t[0] == '-';
    var u := if |t| > 0 && (t[0] == '-' || t[0] == '+') then t[1..] else t;
    match UnsignedPrefix(u)
    case None => None
    case Some(v) =>
      assert exists i :: 0 <= i < |u| && IsDigit(u[i]) by { UnsignedPrefixHasDigit(u); }
      Some(if negative then -v else v)
  }

  lemma UnsignedPrefixHasDigit(u: string)
    requires UnsignedPrefix(u).Some?
    ensures exists i :: 0 <= i < |u| && IsDigit(u[i])
  {
    var ni := LeadingDigits(u);
    if ni > 0 {
      assert IsDigit(u[..ni][0]);
    } else {
      var rest := u[ni..];
      var nf := LeadingDigits(rest[1..]);
      assert IsDigit(rest[1..][..nf][0]);
      assert u[1] == rest[1..][0];
    }
  }

  lemma UnsignedPrefixNonNegative(u: string)
    requires UnsignedPrefix(u).Some?
    ensures UnsignedPrefix(u).value >= 0.0
  {
    var ni := LeadingDigits(u);
    var rest := u[ni..];
    var hasPoint := |rest| > 0 && rest[0] == '.';
    var nf := if hasPoint then LeadingDigits(rest[1..]) else 0;
    var digits := u[..ni] + (if hasPoint then rest[1..][..nf] else "");
    var m := DigitsValue(digits) as real / Pow10(nf);
    assert m >= 0.0 by { NonNegativeQuotient(DigitsValue(digits) as real, Pow10(nf)); }
  }

  lemma NonNegativeQuotient(a: real, b: real)
    requires a >= 0.0 && b >= 1.0
    ensures a / b >= 0.0
  {
  }

  /** Only a leading `-` makes the parsed value negative. */
  lemma ParseFloatSign(s: string)
    requires ParseFloat(s).Some?
    ensures ParseFloat(s).value < 0.0 ==> |Text.TrimStart(s)| > 0 && Text.TrimStart(s)[0] == '-'
  {
    var t := Text.TrimStart(s);
    var u := if |t| > 0 && (t[0] == '-' || t[0] == '+') then t[1..] else t;
    UnsignedPrefixNonNegative(u);
  }

  /** The decimal rendering of a natural number, as `${n}` produces it. */
  function NatToString(n: nat): (s: string)
    ensures |s| >= 1 && AllDigits(s)
    decreases n
  {
    if n < 10 then [DigitChar(n)] else NatToString(n / 10) + [DigitChar(n % 10)]
  }

  /** Reading back a rendered natural number gives the number. */
  lemma {:induction false} DigitsValueOfNatToString(n: nat)
    ensures DigitsValue(NatToString(n)) == n
    decreases n
  {
    var s := NatToString(n);
    if n >= 10 {
      DigitsValueOfNatToString(n / 10);
      assert s[..|s| - 1] == NatToString(n / 10);
    }
  }

  lemma AllDigitsLeading(s: string)
    requires AllDigits(s)
    ensures LeadingDigits(s) == |s|
  {
  }

  /** A non-empty run of digits reads as its value. */
  lemma UnsignedPrefixOfDigits(u: string)
    requires |u| >= 1 && AllDigits(u)
    ensures UnsignedPrefix(u) == Some(DigitsValue(u) as real)
  {
    AllDigitsLeading(u);
    assert LeadingDigits(u) == |u|;
    assert u[|u|..] == [];
    assert u[..|u|] + "" == u;
    var m := DigitsValue(u) as real;
    assert Pow10(0) == 1.0;
    assert m / Pow10(0) == m;
    assert ExponentPart("") == 0;
    assert Scale(m, 0) == m;
  }

  /** `parseFloat` reads a rendered natural number back exactly. */
  lemma ParseNatToString(n: nat)
    ensures ParseFloat(NatToString(n)) == Some(n as real)
  {
    var s := NatToString(n);
    assert IsDigit(s[0]);
    assert !Text.IsWhitespace(s[0]);
    assert Text.TrimStart(s) == s;
    assert s[0] != '-' && s[0] != '+';
    DigitsValueOfNatToString(n);
    UnsignedPrefixOfDigits(s);
    assert UnsignedPrefix(s) == Some(n as real);
  }

  /** The digit run at the front stops at the first non-digit. */
  lemma {:induction false} LeadingDigitsStop(a: string, rest: string)
    requires AllDigits(a) && (rest == [] || !IsDigit(rest[0]))
    ensures LeadingDigits(a + rest) == |a|
  {
    if a == [] {
      assert a + rest == rest;
    } else {
      assert (a + rest)[0] == a[0];
      assert (a + rest)[1..] == a[1..] + rest;
      LeadingDigitsStop(a[1..], rest);
    }
  }

  /** Text that starts with a digit is read without sign or whitespace. */
  lemma ParseFloatOfDigitStart(s: string)
    requires |s| >= 1 && IsDigit(s[0])
    ensures ParseFloat(s) == UnsignedPrefix(s)
  {
    assert Text.TrimStart(s) == s by {
      assert !Text.IsWhitespace(s[0]);
    }
  }

  /** Digits followed by anything that cannot continue a literal (not a
      digit, a point or an exponent mark) read as the digits' value: the rest
      is ignored. */
  lemma UnsignedPrefixOfInteger(a: string, rest: string)
    requires |a| >= 1 && AllDigits(a)
    requires rest == [] || (!IsDigit(rest[0]) && rest[0] != '.' && rest[0] != 'e' && rest[0] != 'E')
    ensures UnsignedPrefix(a + rest) == Some(DigitsValue(a) as real)
  {
    var u := a + rest;
    LeadingDigitsStop(a, rest);
    assert u[..|a|] == a && u[|a|..] == rest;
    assert a + "" == a;
    assert ExponentPart(rest) == 0;
    var m := DigitsValue(a) as real;
    assert Pow10(0) == 1.0;
    assert m / Pow10(0) == m;
  }

  /** The reading of a literal with a point, given where its digit runs end. */
  lemma UnsignedPrefixWithPoint(u: string, ni: nat, nf: nat)
    requires ni == LeadingDigits(u) && ni < |u| && u[ni] == '.'
    requires nf == LeadingDigits(u[ni + 1..]) && ni + nf > 0
    requires ExponentPart(u[ni + 1 + nf..]) == 0
    ensures UnsignedPrefix(u) == Some(DigitsValue(u[..ni] + u[ni + 1..][..nf]) as real / Pow10(nf))
  {
    var rest := u[ni..];
    assert rest[0] == '.';
    assert rest[1..] == u[ni + 1..];
    assert rest[1 + nf..] == u[ni + 1 + nf..];
  }

  /** `a.b` followed by anything that cannot continue the literal reads as
      the digits of `a` and `b` together, scaled down by the length of `b`. */
  lemma UnsignedPrefixOfDecimal(a: string, b: string, rest: string)
    requires |a| >= 1 && AllDigits(a) && AllDigits(b)
    requires rest == [] || (!IsDigit(rest[0]) && rest[0] != 'e' && rest[0] != 'E')
    ensures AllDigits(a + b)
    ensures UnsignedPrefix(a + "." + b + rest) == Some(DigitsValue(a + b) as real / Pow10(|b|))
  {
    DigitsConcat(a, b);
    var u := a + "." + b + rest;
    DecimalShape(a, b, rest);
    assert ExponentPart(rest) == 0;
    UnsignedPrefixWithPoint(u, |a|, |b|);
  }

  lemma DigitsConcat(a: string, b: string)
    requires AllDigits(a) && AllDigits(b)
    ensures AllDigits(a + b)
  {
    forall i | 0 <= i < |a + b| ensures IsDigit((a + b)[i]) {
      if i >= |a| { assert (a + b)[i] == b[i - |a|]; }
    }
  }

  /** Where the digit runs of `a.b` followed by `rest` end. */
  lemma DecimalShape(a: string, b: string, rest: string)
    requires AllDigits(a) && AllDigits(b)
    requires rest == [] || !IsDigit(rest[0])
    ensures
      var u := a + "." + b + rest;
      && LeadingDigits(u) == |a| && |a| < |u| && u[|a|] == '.'
      && LeadingDigits(u[|a| + 1..]) == |b|
      && u[..|a|] + u[|a| + 1..][..|b|] == a + b
      && u[|a| + 1 + |b|..] == rest
  {
    var u := a + "." + b + rest;
    var w := b + rest;
    var tail := "." + w;
    assert u == a + tail;
    assert LeadingDigits(u) == |a| by {
      LeadingDigitsStop(a, tail);
    }
    assert u[|a| + 1..] == w by {
      assert (a + tail)[|a| + 1..] == tail[1..];
    }
    assert LeadingDigits(w) == |b| by {
      LeadingDigitsStop(b, rest);
    }
    assert u[..|a|] == a;
    assert w[..|b|] == b && w[|b|..] == rest;
  }
}
