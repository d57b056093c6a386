/** Text conversions the application relies on: `Number.prototype.toString`
    for integers, the global `parseInt` (ECMA-262, section 19.2.5, with no
    radix argument), plain string ordering and `Array.prototype.join`. */
module Text {
  import opened Common

  predicate IsDigit(c: char) { '0' <= c <= '9' }

  /** The value of `c` as a digit of radix up to 36 ("0"-"9", then "a"-"z" or
      "A"-"Z" for 10-35), or 36 when `c` is no digit at all. */
  function CharValue(c: char): (v: nat)
    ensures v <= 36
    ensures IsDigit(c) <==> v < 10
  {
    if '0' <= c <= '9' then c as int - '0' as int
    else if 'a' <= c <= 'z' then c as int - 'a' as int + 10
    else if 'A' <= c <= 'Z' then c as int - 'A' as int + 10
    else 36
  }

  predicate IsRadixDigit(c: char, radix: nat) { CharValue(c) < radix }

  function DigitChar(d: nat): (c: char)
    requires d < 10
    ensures IsDigit(c) && CharValue(c) == d
  {
    (d + '0' as int) as char
  }

  /** Decimal representation of a natural number, without leading zeros. */
  function NatToString(n: nat): (s: string)
    ensures |s| > 0
    ensures forall i | 0 <= i < |s| :: IsDigit(s[i])
    ensures |s| == 1 <==> n < 10
    decreases n
  {
    if n < 10 then [DigitChar(n)] else NatToString(n / 10) + [DigitChar(n % 10)]
  }

  /** `String(i)` for an integer `i`. */
  function IntToString(i: int): (s: string)
    ensures |s| > 0
    ensures forall k | 0 <= k < |s| :: IsDigit(s[k]) || (k == 0 && s[k] == '-')
  {
    if i < 0 then "-" + NatToString(-i) else NatToString(i)
  }

  /** `String(n)` for a number: integers in decimal, `NaN` as "NaN". */
  function NumberToString(n: Number): string
  {
    match n
    case NaN => "NaN"
    case Int(i) => IntToString(i)
  }

  /** The value of a string of radix digits, most significant digit first. */
  function DigitsValue(z: string, radix: nat): int
    requires forall i | 0 <= i < |z| :: IsRadixDigit(z[i], radix)
  {
    if z == [] then 0 else DigitsValue(z[..|z| - 1], radix) * radix + CharValue(z[|z| - 1])
  }

  /** The longest prefix of `s` made of radix digits. */
  function LeadingDigits(s: string, radix: nat): (z: string)
    ensures z <= s
    ensures forall i | 0 <= i < |z| :: IsRadixDigit(z[i], radix)
    ensures |z| < |s| ==> !IsRadixDigit(s[|z|], radix)
  {
    if s == [] || !IsRadixDigit(s[0], radix) then [] else [s[0]] + LeadingDigits(s[1..], radix)
  }

  /** StrWhiteSpaceChar of ECMA-262: the WhiteSpace code points (tab, vertical
      tab, form feed, space, no-break space, the byte order mark and every
      space separator) and the LineTerminator code points. */
  predicate IsStrWhiteSpace(c: char)
  {
    var v := c as int;
    v == 0x09 || v == 0x0A || v == 0x0B || v == 0x0C || v == 0x0D || v == 0x20 ||
    v == 0xA0 || v == 0x1680 || (0x2000 <= v <= 0x200A) || v == 0x2028 || v == 0x2029 ||
    v == 0x202F || v == 0x205F || v == 0x3000 || v == 0xFEFF
  }

  /** `s` without its leading white space. */
  function TrimStart(s: string): (t: string)
    ensures |t| <= |s| && t == s[|s| - |t|..]
    ensures t == [] || !IsStrWhiteSpace(t[0])
    ensures forall i | 0 <= i < |s| - |t| :: IsStrWhiteSpace(s[i])
  {
    if s != [] && IsStrWhiteSpace(s[0]) then TrimStart(s[1..]) else s
  }

  /** `t` without a leading "+" or "-". */
  function StripSign(t: string): (u: string)
    ensures |u| <= |t| && u == t[|t| - |u|..]
  {
    if t != [] && (t[0] == '-' || t[0] == '+') then t[1..] else t
  }

  predicate HasHexPrefix(u: string)
  {
    |u| >= 2 && u[0] == '0' && (u[1] == 'x' || u[1] == 'X')
  }

  /** The number denoted by the longest run of radix digits at the start of
      `s`, or `NaN` when there is none. */
  function DigitRun(s: string, radix: nat): Number
  {
    var z := LeadingDigits(s, radix);
    if z == [] then NaN else Int(DigitsValue(z, radix))
  }

  /** The number after the sign: hexadecimal after a "0x"/"0X" prefix,
      decimal otherwise. */
  function ParseMagnitude(u: string): Number
  {
    if HasHexPrefix(u) then DigitRun(u[2..], 16) else DigitRun(u, 10)
  }

  function ApplySign(negative: bool, m: Number): Number
  {
    if negative && m.Int? then Int(0 - m.value) else m
  }

  /** The global `parseInt(s)`: skip leading white space, take an optional
      sign, read radix 16 after a "0x"/"0X" prefix and radix 10 otherwise,
      and convert the longest run of digits that follows; `NaN` when that run
      is empty. The text after the run is ignored. */
  function ParseInt(s: string): Number
  {
    var t := TrimStart(s);
    ApplySign(t != [] && t[0] == '-', ParseMagnitude(StripSign(t)))
  }

  /** The decimal digits of `n` denote `n`. */
  lemma {:induction false} NatToStringValue(n: nat)
    ensures DigitsValue(NatToString(n), 10) == n
    decreases n
  {
    var s := NatToString(n);
    if n >= 10 {
      NatToStringValue(n / 10);
      assert s[..|s| - 1] == NatToString(n / 10);
    }
  }

  /** A run of decimal digits followed by a non-digit is read up to the non-digit. */
  lemma {:induction false} LeadingDigitsOfRun(d: string, rest: string)
    requires forall i | 0 <= i < |d| :: IsDigit(d[i])
    requires rest == [] || !IsDigit(rest[0])
    ensures LeadingDigits(d + rest, 10) == d
  {
    if d != [] {
      assert (d + rest)[1..] == d[1..] + rest;
      LeadingDigitsOfRun(d[1..], rest);
    } else {
      assert d + rest == rest;
    }
  }

  /** Text that starts with a decimal digit and no "0x" prefix is read as a
      plain decimal run. */
  lemma ParseIntOfDecimalStart(s: string)
    requires s != [] && IsDigit(s[0]) && !HasHexPrefix(s)
    ensures ParseInt(s) == DigitRun(s, 10)
  {
    TrimStartOfDigit(s);
    StripSignOfDigit(s);
    MagnitudeOfDecimal(s);
  }

  lemma StripSignOfDigit(s: string)
    requires s != [] && IsDigit(s[0])
    ensures StripSign(s) == s && s[0] != '-'
  {
  }

  lemma MagnitudeOfDecimal(u: string)
    requires !HasHexPrefix(u)
    ensures ParseMagnitude(u) == DigitRun(u, 10)
  {
  }

  lemma TrimStartOfDigit(s: string)
    requires s != [] && IsDigit(s[0])
    ensures TrimStart(s) == s
  {
  }

  /** `parseInt` reads the decimal number at the start of its argument and
      ignores whatever follows the digits. */
  lemma ParseIntReadsLeadingNumber(n: nat, rest: string)
    requires rest == [] || (!IsDigit(rest[0]) && (n == 0 ==> rest[0] != 'x' && rest[0] != 'X'))
    ensures ParseInt(NatToString(n) + rest) == Int(n)
  {
    var d := NatToString(n);
    var s := d + rest;
    assert IsDigit(s[0]) by { assert s[0] == d[0]; }
    assert !HasHexPrefix(s) by {
      if |d| == 1 {
        assert d == [DigitChar(n)];
      } else {
        assert s[1] == d[1];
      }
    }
    ParseIntOfDecimalStart(s);
    LeadingDigitsOfRun(d, rest);
    NatToStringValue(n);
  }

  /** `parseInt(String(i)) === i`: a page number written into the URL is read
      back unchanged. */
  lemma ParseIntOfIntToString(i: int)
    ensures ParseInt(IntToString(i)) == Int(i)
  {
    if i >= 0 {
      ParseIntReadsLeadingNumber(i, []);
      assert NatToString(i) + [] == NatToString(i);
    } else {
      ParseIntOfNegative(-i, IntToString(i));
    }
  }

  /** A minus sign in front of the digits negates what they denote. */
  lemma ParseIntOfNegative(n: nat, s: string)
    requires s == ['-'] + NatToString(n)
    ensures ParseInt(s) == Int(-(n as int))
  {
    var d := NatToString(n);
    assert s[0] == '-';
    TrimStartOfSign(s);
    assert StripSign(s) == d by { assert s[1..] == d; }
    DecimalMagnitude(n);
  }

  lemma TrimStartOfSign(s: string)
    requires s != [] && s[0] == '-'
    ensures TrimStart(s) == s
  {
  }

  /** The digits of `n`, read as a magnitude, are `n`. */
  lemma DecimalMagnitude(n: nat)
    ensures ParseMagnitude(NatToString(n)) == Int(n)
  {
    var d := NatToString(n);
    assert !HasHexPrefix(d) by {
      if |d| >= 2 {
        assert IsDigit(d[1]);
      }
    }
    LeadingDigitsOfRun(d, []);
    assert d + [] == d;
    NatToStringValue(n);
  }

  /** Text without any decimal digit parses to `NaN`. */
  lemma ParseIntWithoutDigits(s: string)
    requires forall i | 0 <= i < |s| :: !IsDigit(s[i])
    ensures ParseInt(s) == NaN
  {
    var u := StripSign(TrimStart(s));
    NoDigitsInSuffix(s, u);
    assert !HasHexPrefix(u) by {
      if |u| >= 2 {
        assert !IsDigit(u[0]);
      }
    }
    assert LeadingDigits(u, 10) == [];
    assert ParseMagnitude(u) == NaN;
  }

  lemma NoDigitsInSuffix(s: string, u: string)
    requires forall i | 0 <= i < |s| :: !IsDigit(s[i])
    requires |u| <= |s| && u == s[|s| - |u|..]
    ensures forall i | 0 <= i < |u| :: !IsDigit(u[i])
  {
    forall i | 0 <= i < |u| ensures !IsDigit(u[i]) {
      assert u[i] == s[|s| - |u| + i];
    }
  }

  /** Code-point order on strings: JavaScript's `<` on strings, and the
      approximation used here for `String.prototype.localeCompare`. */
  predicate LexLess(a: string, b: string)
  {
    if a == [] then b != []
    else if b == [] then false
    else if a[0] != b[0] then a[0] < b[0]
    else LexLess(a[1..], b[1..])
  }

  lemma {:induction false} LexLessIrreflexive(a: string)
    ensures !LexLess(a, a)
  {
    if a != [] {
      LexLessIrreflexive(a[1..]);
    }
  }

  lemma {:induction false} LexLessTransitive(a: string, b: string, c: string)
    requires LexLess(a, b) && LexLess(b, c)
    ensures LexLess(a, c)
  {
    if a != [] && b != [] && c != [] && a[0] == b[0] && b[0] == c[0] {
      LexLessTransitive(a[1..], b[1..], c[1..]);
    }
  }

  /** Any two different strings are ordered one way or the other. */
  lemma {:induction false} LexLessTotal(a: string, b: string)
    requires a != b
    ensures LexLess(a, b) || LexLess(b, a)
  {
    if a != [] && b != [] && a[0] == b[0] {
      assert a == [a[0]] + a[1..] && b == [b[0]] + b[1..];
      LexLessTotal(a[1..], b[1..]);
    }
  }

  lemma {:induction false} LexLessAsymmetric(a: string, b: string)
    requires LexLess(a, b)
    ensures !LexLess(b, a)
  {
    if a != [] && b != [] && a[0] == b[0] {
      LexLessAsymmetric(a[1..], b[1..]);
    }
  }

  /** `a.localeCompare(b)`, approximated by code-point order: negative when `a`
      sorts first, zero when the strings are equal, positive otherwise. */
  function LocaleCompare(a: string, b: string): int
  {
    if LexLess(a, b) then -1 else if a == b then 0 else 1
  }

  /** The approximation is a consistent comparator: zero exactly on equal
      strings, and swapping the arguments flips the sign. */
  lemma LocaleCompareConsistent(a: string, b: string)
    ensures LocaleCompare(a, b) == 0 <==> a == b
    ensures LocaleCompare(a, b) < 0 <==> LocaleCompare(b, a) > 0
  {
    if a == b {
      LexLessIrreflexive(a);
    } else {
      LexLessTotal(a, b);
      if LexLess(a, b) {
        LexLessAsymmetric(a, b);
      }
    }
  }

  /** `xs.join(sep)`. */
  function Join(xs: seq<string>, sep: string): string
  {
    if |xs| == 0 then "" else if |xs| == 1 then xs[0] else xs[0] + sep + Join(xs[1..], sep)
  }

  /** With a non-empty separator, a join is empty exactly when there is
      nothing to join or the only element is empty. */
  lemma {:induction false} JoinEmpty(xs: seq<string>, sep: string)
    requires sep != ""
    ensures Join(xs, sep) == "" <==> (xs == [] || xs == [""])
  {
    if |xs| >= 2 {
      assert |xs[0] + sep + Join(xs[1..], sep)| >= |sep| > 0;
    }
  }
}
