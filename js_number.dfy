/** JavaScript's global `parseInt` called without a radix (ECMA-262,
    section 19.2.5) and the decimal rendering of an integer that template
    literals such as `/profile/${id}` produce. NaN is `None`. */
module JsNumber {
  import opened Common
  import opened JsString

  predicate IsDecimalDigit(c: char) {
    '0' <= c <= '9'
  }

  predicate IsHexDigit(c: char) {
    IsDecimalDigit(c) || 'a' <= c <= 'f' || 'A' <= c <= 'F'
  }

  /** A digit of radix 10, or of radix 16 after a `0x` prefix. */
  predicate IsRadixDigit(c: char, hex: bool) {
    if hex then IsHexDigit(c) else IsDecimalDigit(c)
  }

  function DigitValue(c: char): (d: nat)
    requires IsHexDigit(c)
    ensures d < 16
    ensures IsDecimalDigit(c) ==> d < 10
  {
    if IsDecimalDigit(c) then c as int - '0' as int
    else if 'a' <= c <= 'f' then c as int - 'a' as int + 10
    else c as int - 'A' as int + 10
  }

  /** The length of the longest prefix of `s` made of digits. */
  function DigitPrefix(s: string, hex: bool): (n: nat)
    ensures n <= |s|
    ensures forall i :: 0 <= i < n ==> IsRadixDigit(s[i], hex)
    ensures n < |s| ==> !IsRadixDigit(s[n], hex)
  {
    if s == [] || !IsRadixDigit(s[0], hex) then 0 else 1 + DigitPrefix(s[1..], hex)
  }

  /** The mathematical value of a digit string, most significant digit first. */
  function DigitsValue(ds: string, hex: bool): nat
    requires forall i :: 0 <= i < |ds| ==> IsRadixDigit(ds[i], hex)
  {
    if ds == [] then 0
    else
      assert IsRadixDigit(ds[|ds| - 1], hex);
      DigitsValue(ds[..|ds| - 1], hex) * (if hex then 16 else 10) + DigitValue(ds[|ds| - 1])
  }

  /** The string after an optional leading sign. */
  function Unsigned(s: string): string {
    if s != [] && (s[0] == '-' || s[0] == '+') then s[1..] else s
  }

  /** With no radix given, `0x` or `0X` selects radix 16 and is skipped. */
  predicate HasHexPrefix(u: string) {
    |u| >= 2 && u[0] == '0' && (u[1] == 'x' || u[1] == 'X')
  }

  /** The value of the longest run of digits at the start of `body`; NaN when
      the run is empty. */
  function ReadDigits(body: string, hex: bool): (r: Option<nat>)
    ensures r.None? <==> body == [] || !IsRadixDigit(body[0], hex)
  {
    var end := DigitPrefix(body, hex);
    if end == 0 then None else Some(DigitsValue(body[..end], hex))
  }

  /** parseInt on a string whose leading white space is already gone. */
  function ParseSigned(s: string): Option<int> {
    var u := Unsigned(s);
    var hex := HasHexPrefix(u);
    match ReadDigits(if hex then u[2..] else u, hex)
    case None => None
    case Some(v) => Some(if s != [] && s[0] == '-' then -(v as int) else v as int)
  }

  /** `parseInt(input)`: skip leading white space, take an optional sign,
      switch to radix 16 after `0x`/`0X`, read the longest run of digits;
      NaN (`None`) when that run is empty. */
  function ParseInt(input: string): (r: Option<int>)
    ensures TrimStart(input) == [] ==> r.None?
    ensures var s := TrimStart(input);
      s != [] && !IsDecimalDigit(s[0]) && s[0] != '-' && s[0] != '+' ==> r.None?
  {
    ParseSigned(TrimStart(input))
  }

  /** parseInt gives a number exactly when, after the white space and the
      sign, a decimal digit follows, and after a `0x` prefix a hexadecimal
      one; the number is never positive after `-` nor negative otherwise. */
  lemma ParseIntIff(input: string)
    ensures var u := Unsigned(TrimStart(input));
      ParseInt(input).Some? <==>
        u != [] && IsDecimalDigit(u[0]) && (HasHexPrefix(u) ==> |u| > 2 && IsHexDigit(u[2]))
    ensures var s := TrimStart(input);
      ParseInt(input).Some? ==> (if s[0] == '-' then ParseInt(input).value <= 0 else ParseInt(input).value >= 0)
  {
  }

  function DigitChar(d: nat): (c: char)
    requires d < 10
    ensures IsDecimalDigit(c) && DigitValue(c) == d
  {
    ('0' as int + d) as char
  }

  /** Decimal digits of `n` without leading zeros. */
  function NatToString(n: nat): (r: string)
    ensures |r| >= 1
    ensures forall i :: 0 <= i < |r| ==> IsDecimalDigit(r[i])
    ensures r[0] == '0' ==> n == 0
    decreases n
  {
    if n < 10 then [DigitChar(n)] else NatToString(n / 10) + [DigitChar(n % 10)]
  }

  /** `${n}` for an integral number. */
  function IntToString(n: int): (r: string)
    ensures r != [] && (IsDecimalDigit(r[0]) || r[0] == '-')
    ensures forall i :: 0 <= i < |r| ==> r[i] != '/'
  {
    if n < 0 then "-" + NatToString(-n) else NatToString(n)
  }

  lemma {:induction false} DigitsValueOfNatToString(n: nat)
    ensures DigitsValue(NatToString(n), false) == n
    decreases n
  {
    var r := NatToString(n);
    if n >= 10 {
      DigitsValueOfNatToString(n / 10);
      assert r[..|r| - 1] == NatToString(n / 10);
    }
  }

  lemma {:induction false} DigitPrefixOfDigits(ds: string, rest: string, hex: bool)
    requires forall i :: 0 <= i < |ds| ==> IsRadixDigit(ds[i], hex)
    requires rest == [] || !IsRadixDigit(rest[0], hex)
    ensures DigitPrefix(ds + rest, hex) == |ds|
  {
    if ds != [] {
      assert (ds + rest)[1..] == ds[1..] + rest;
      DigitPrefixOfDigits(ds[1..], rest, hex);
    } else {
      assert ds + rest == rest;
    }
  }

  /** parseInt reads back what `${n}` printed, and ignores whatever follows
      the digits, so long as that does not continue the number (a digit) or,
      after a lone `0`, turn it into a hexadecimal prefix. */
  lemma ParseIntOfIntToString(n: int, rest: string)
    requires rest == [] || !IsDecimalDigit(rest[0])
    requires n == 0 ==> rest == [] || (rest[0] != 'x' && rest[0] != 'X')
    ensures ParseInt(IntToString(n) + rest) == Some(n)
  {
    var m: nat := if n < 0 then -n else n;
    var ds := NatToString(m);
    DigitsValueOfNatToString(m);
    if n < 0 {
      ParseIntOfSignedDigits('-', ds, rest);
      assert IntToString(n) == ['-'] + ds;
    } else {
      ParseIntOfDigits(ds, rest);
    }
  }


  /** Leading zeros add nothing to a decimal digit string's value. */
  lemma {:induction false} LeadingZeroValue(ds: string)
    requires forall i :: 0 <= i < |ds| ==> IsDecimalDigit(ds[i])
    ensures DigitsValue("0" + ds, false) == DigitsValue(ds, false)
  {
    if ds != [] {
      var init := ds[..|ds| - 1];
      LeadingZeroValue(init);
      assert ("0" + ds)[..|ds|] == "0" + init;
    }
  }

  /** A digit run with no hexadecimal prefix is read as its value. */
  lemma ReadDigitsRun(ds: string, rest: string)
    requires ds != [] && forall i :: 0 <= i < |ds| ==> IsDecimalDigit(ds[i])
    requires rest == [] || !IsDecimalDigit(rest[0])
    requires ds == "0" ==> rest == [] || (rest[0] != 'x' && rest[0] != 'X')
    ensures (ds + rest)[0] == ds[0]
    ensures !HasHexPrefix(ds + rest)
    ensures ReadDigits(ds + rest, false) == Some(DigitsValue(ds, false))
  {
    var u := ds + rest;
    if |ds| >= 2 { assert u[1] == ds[1]; }
    else if |u| >= 2 && u[0] == '0' { assert ds == "0" && u[1] == rest[0]; }
    DigitPrefixOfDigits(ds, rest, false);
    assert u[..|ds|] == ds;
  }

  /** parseInt of a string that starts with no white space, whose optional
      sign leaves a run of decimal digits of value `v`. */
  lemma ParseIntOfRun(s: string, v: nat)
    requires s != [] && !IsJsSpace(s[0])
    requires !HasHexPrefix(Unsigned(s)) && ReadDigits(Unsigned(s), false) == Some(v)
    ensures ParseInt(s) == Some(if s[0] == '-' then -(v as int) else v)
  {
    assert TrimStart(s) == s;
  }

  /** Concatenation after a sign regroups freely. */
  lemma SignBefore(sign: char, ds: string, rest: string)
    ensures [sign] + ds + rest == [sign] + (ds + rest)
  {
  }

  /** parseInt reads any run of decimal digits, leading zeros included, as
      its value, whatever follows that does not continue the run or, after
      a lone `0`, make a hexadecimal prefix. */
  lemma ParseIntOfDigits(ds: string, rest: string)
    requires ds != [] && forall i :: 0 <= i < |ds| ==> IsDecimalDigit(ds[i])
    requires rest == [] || !IsDecimalDigit(rest[0])
    requires ds == "0" ==> rest == [] || (rest[0] != 'x' && rest[0] != 'X')
    ensures ParseInt(ds + rest) == Some(DigitsValue(ds, false))
  {
    var u := ds + rest;
    ReadDigitsRun(ds, rest);
    assert Unsigned(u) == u;
    ParseIntOfRun(u, DigitsValue(ds, false));
  }

  /** The magnitude `v` under the sign `sign`: negated after `-`. */
  function WithSign(sign: char, v: nat): int {
    if sign == '-' then -(v as int) else v
  }

  /** A sign before a digit run comes off, and `-` negates the value. */
  lemma ParseIntOfSignedRun(sign: char, u: string, v: nat)
    requires sign == '+' || sign == '-'
    requires !HasHexPrefix(u) && ReadDigits(u, false) == Some(v)
    ensures ParseInt([sign] + u) == Some(WithSign(sign, v))
  {
    var signed := [sign] + u;
    assert signed[1..] == u && signed[0] == sign;
    assert Unsigned(signed) == u;
    ParseIntOfRun(signed, v);
  }

  /** The same run after a `+` reads as it is, after a `-` negated. */
  lemma ParseIntOfSignedDigits(sign: char, ds: string, rest: string)
    requires sign == '+' || sign == '-'
    requires ds != [] && forall i :: 0 <= i < |ds| ==> IsDecimalDigit(ds[i])
    requires rest == [] || !IsDecimalDigit(rest[0])
    requires ds == "0" ==> rest == [] || (rest[0] != 'x' && rest[0] != 'X')
    ensures ParseInt([sign] + ds + rest) == Some(WithSign(sign, DigitsValue(ds, false)))
  {
    ReadDigitsRun(ds, rest);
    ParseIntOfSignedRun(sign, ds + rest, DigitsValue(ds, false));
    SignBefore(sign, ds, rest);
  }

  /** A leading zero changes nothing: `parseInt("007")` is `parseInt("7")`. */
  lemma ParseIntLeadingZero(ds: string, rest: string)
    requires ds != [] && forall i :: 0 <= i < |ds| ==> IsDecimalDigit(ds[i])
    requires rest == [] || !IsDecimalDigit(rest[0])
    requires ds == "0" ==> rest == [] || (rest[0] != 'x' && rest[0] != 'X')
    ensures ParseInt("0" + ds + rest) == ParseInt(ds + rest)
  {
    var zds := "0" + ds;
    assert forall i :: 0 <= i < |zds| ==> IsDecimalDigit(zds[i]) by {
      forall i | 0 <= i < |zds| ensures IsDecimalDigit(zds[i]) {
        if i > 0 { assert zds[i] == ds[i - 1]; }
      }
    }
    assert |zds| >= 2;
    ParseIntOfDigits(zds, rest);
    ParseIntOfDigits(ds, rest);
    LeadingZeroValue(ds);
  }




  /** Decimal rendering is injective, since parseInt inverts it. */
  lemma IntToStringInjective(a: int, b: int)
    requires IntToString(a) == IntToString(b)
    ensures a == b
  {
    ParseIntOfIntToString(a, []);
    ParseIntOfIntToString(b, []);
    assert IntToString(a) + [] == IntToString(b) + [];
  }

  /** Leading white space never changes what parseInt returns. */
  lemma ParseIntSkipsSpace(ws: string, s: string)
    requires AllSpace(ws)
    ensures ParseInt(ws + s) == ParseInt(s)
  {
    TrimStartAfterSpace(ws, s);
  }
}
