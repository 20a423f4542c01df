/**
 * The string primitives the core relies on from its runtimes: .NET `Int32.ToString` and
 * `int.TryParse` (the claim round trip), `ToLowerInvariant` on file extensions, and, on the
 * client side, JavaScript's `String.length` (UTF-16 code units) and `parseInt`.
 */
module Text {
  import opened Wrappers

  const Int32Min: int := -0x8000_0000
  const Int32Max: int := 0x7FFF_FFFF

  predicate IsInt32(n: int) { Int32Min <= n <= Int32Max }

  predicate IsDigit(c: char) { '0' <= c <= '9' }

  predicate AllDigits(s: string) { forall i :: 0 <= i < |s| ==> IsDigit(s[i]) }

  function DigitValue(c: char): (d: nat)
    requires IsDigit(c)
    ensures d < 10
  {
    (c as int) - ('0' as int)
  }

  function DigitChar(d: nat): (c: char)
    requires d < 10
    ensures IsDigit(c) && DigitValue(c) == d
  {
    (('0' as int) + d) as char
  }

  /** The value of a string of decimal digits, most significant first. */
  function DecimalValue(ds: string): nat
    requires AllDigits(ds)
  {
    if |ds| == 0 then 0 else DecimalValue(ds[..|ds| - 1]) * 10 + DigitValue(ds[|ds| - 1])
  }

  /** The shortest decimal digits of `n`, as `n.ToString()` writes them. */
  function NatToDecimal(n: nat): (ds: string)
    ensures |ds| > 0 && AllDigits(ds)
  {
    if n < 10 then [DigitChar(n)] else NatToDecimal(n / 10) + [DigitChar(n % 10)]
  }

  /** `Int32.ToString()` under the invariant culture: a leading '-' for negatives. */
  function IntToString(n: int): (s: string)
    ensures |s| > 0
  {
    if n < 0 then "-" + NatToDecimal(-n) else NatToDecimal(n)
  }

  lemma {:induction false} DecimalValueOfNatToDecimal(n: nat)
    ensures DecimalValue(NatToDecimal(n)) == n
  {
    var ds := NatToDecimal(n);
    if n >= 10 {
      DecimalValueOfNatToDecimal(n / 10);
      assert ds[..|ds| - 1] == NatToDecimal(n / 10);
    }
  }

  /** White space that `NumberStyles.AllowLeadingWhite`/`AllowTrailingWhite` skip. */
  predicate IsDotNetWhite(c: char) { c == ' ' || '\t' <= c <= '\r' }

  function TrimStartWhite(s: string): (t: string)
    ensures |t| <= |s| && (|t| > 0 ==> !IsDotNetWhite(t[0]))
  {
    if |s| > 0 && IsDotNetWhite(s[0]) then TrimStartWhite(s[1..]) else s
  }

  function TrimEndWhite(s: string): (t: string)
    ensures |t| <= |s| && (|t| > 0 ==> !IsDotNetWhite(t[|t| - 1]))
  {
    if |s| > 0 && IsDotNetWhite(s[|s| - 1]) then TrimEndWhite(s[..|s| - 1]) else s
  }

  /**
   * `int.TryParse(s, out n)` with the default `NumberStyles.Integer`: optional surrounding
   * white space, an optional sign, one or more ASCII digits, and a value that fits in 32 bits.
   */
  function ParseInt32(s: string): (r: Option<int>)
    ensures r.Some? ==> IsInt32(r.value)
  {
    var t := TrimEndWhite(TrimStartWhite(s));
    if |t| == 0 then None
    else
      var signed := t[0] == '-' || t[0] == '+';
      var digits := if signed then t[1..] else t;
      if |digits| == 0 || !AllDigits(digits) then None
      else
        var v: int := if t[0] == '-' then 0 - DecimalValue(digits) else DecimalValue(digits);
        if IsInt32(v) then Some(v) else None
  }

  /** `int.TryParse` fails on an empty, blank, sign-only or non-numeric claim and skips surrounding blanks. */
  lemma ParseInt32Rejects()
    ensures ParseInt32("") == None && ParseInt32("   ") == None && ParseInt32("-") == None
    ensures ParseInt32("12a") == None
    ensures ParseInt32(" +42 ") == Some(42)
  {
    assert TrimStartWhite("   ") == "";
    assert TrimEndWhite(TrimStartWhite("-")) == "-";
    assert TrimEndWhite(TrimStartWhite("12a")) == "12a";
    assert !IsDigit("12a"[2]);
    assert TrimStartWhite(" +42 ") == "+42 ";
    assert TrimEndWhite("+42 ") == "+42";
    assert "+42"[1..] == "42";
    assert DecimalValue("42") == 42 by { assert "42"[..1] == "4"; assert "4"[..0] == ""; }
  }

  /** The claim that token issuance writes (`user.Id.ToString()`) parses back to the same id. */
  lemma IntToStringRoundTrip(n: int)
    requires IsInt32(n)
    ensures ParseInt32(IntToString(n)) == Some(n)
  {
    var s := IntToString(n);
    var ds := NatToDecimal(if n < 0 then -n else n);
    assert !IsDotNetWhite(s[0]);
    assert TrimStartWhite(s) == s;
    assert s[|s| - 1] == ds[|ds| - 1];
    assert TrimEndWhite(s) == s;
    DecimalValueOfNatToDecimal(if n < 0 then -n else n);
    if n < 0 {
      assert s[1..] == ds;
    }
  }

  /** `ToLowerInvariant` on ASCII letters; every other character is left as it is. */
  function ToLowerAscii(s: string): (t: string)
    ensures |t| == |s|
    ensures forall i :: 0 <= i < |s| ==> t[i] == (if 'A' <= s[i] <= 'Z' then (s[i] as int + 32) as char else s[i])
  {
    if |s| == 0 then "" else
      var c := s[0];
      [if 'A' <= c <= 'Z' then (c as int + 32) as char else c] + ToLowerAscii(s[1..])
  }

  /** JavaScript's `String.prototype.length`: characters outside the BMP take two code units. */
  function Utf16Length(s: string): (n: nat)
    ensures |s| <= n <= 2 * |s|
  {
    if |s| == 0 then 0 else (if s[0] as int > 0xFFFF then 2 else 1) + Utf16Length(s[1..])
  }

  lemma {:induction false} Utf16LengthOfBmp(s: string)
    requires forall i :: 0 <= i < |s| ==> s[i] as int <= 0xFFFF
    ensures Utf16Length(s) == |s|
  {
    if |s| > 0 {
      Utf16LengthOfBmp(s[1..]);
    }
  }

  /** JavaScript's StrWhiteSpaceChar: white space and line terminators (category Zs included). */
  predicate IsJsWhite(c: char)
  {
    c == '\t' || c == '\n' || c == '\U{000B}' || c == '\U{000C}' || c == '\r' || c == ' '
    || c == '\U{00A0}' || c == '\U{1680}' || ('\U{2000}' <= c <= '\U{200A}')
    || c == '\U{2028}' || c == '\U{2029}' || c == '\U{202F}' || c == '\U{205F}'
    || c == '\U{3000}' || c == '\U{FEFF}'
  }

  /** `Char.IsWhiteSpace`: categories Zs, Zl and Zp, the controls U+0009 to U+000D, and U+0085. */
  predicate IsWhiteSpace(c: char)
  {
    ('\t' <= c <= '\r') || c == ' ' || c == '\U{0085}' || c == '\U{00A0}' || c == '\U{1680}'
    || ('\U{2000}' <= c <= '\U{200A}') || c == '\U{2028}' || c == '\U{2029}' || c == '\U{202F}'
    || c == '\U{205F}' || c == '\U{3000}'
  }

  /** `string.IsNullOrWhiteSpace` for a string that is present: every character is white space. */
  predicate IsBlank(s: string)
  {
    forall i :: 0 <= i < |s| ==> IsWhiteSpace(s[i])
  }

  function TrimStartJsWhite(s: string): (t: string)
    ensures |t| <= |s| && (|t| > 0 ==> !IsJsWhite(t[0]))
  {
    if |s| > 0 && IsJsWhite(s[0]) then TrimStartJsWhite(s[1..]) else s
  }

  predicate IsHexDigit(c: char) { IsDigit(c) || 'a' <= c <= 'f' || 'A' <= c <= 'F' }

  function HexValue(c: char): (d: nat)
    requires IsHexDigit(c)
    ensures d < 16
  {
    if IsDigit(c) then DigitValue(c)
    else if 'a' <= c <= 'f' then (c as int) - ('a' as int) + 10
    else (c as int) - ('A' as int) + 10
  }

  predicate IsRadixDigit(c: char, radix: nat) { if radix == 16 then IsHexDigit(c) else IsDigit(c) }

  /** The longest prefix of `s` made of digits of `radix` (10 or 16). */
  function DigitPrefix(s: string, radix: nat): (p: string)
    ensures |p| <= |s| && p == s[..|p|]
    ensures forall i :: 0 <= i < |p| ==> IsRadixDigit(p[i], radix)
    ensures |p| < |s| ==> !IsRadixDigit(s[|p|], radix)
  {
    if |s| > 0 && IsRadixDigit(s[0], radix) then
      var rest := DigitPrefix(s[1..], radix);
      assert s[1..][..|rest|] == s[1..|rest| + 1];
      [s[0]] + rest
    else ""
  }

  /** The value of a string of digits of a radix, most significant first. */
  function RadixValue(ds: string, radix: nat): nat
    requires forall i :: 0 <= i < |ds| ==> IsRadixDigit(ds[i], radix)
  {
    if |ds| == 0 then 0
    else
      var c := ds[|ds| - 1];
      assert IsRadixDigit(c, radix);
      RadixValue(ds[..|ds| - 1], radix) * radix + (if radix == 16 then HexValue(c) else DigitValue(c))
  }

  /**
   * JavaScript's `parseInt(s)` without a radix: leading white space, an optional sign, an
   * optional `0x`/`0X` switching to hexadecimal, then the longest run of digits; `None` is NaN.
   */
  function JsParseInt(s: string): (r: Option<int>)
  {
    var t := TrimStartJsWhite(s);
    var negative := |t| > 0 && t[0] == '-';
    var u := if |t| > 0 && (t[0] == '-' || t[0] == '+') then t[1..] else t;
    var hex := |u| >= 2 && u[0] == '0' && (u[1] == 'x' || u[1] == 'X');
    var radix := if hex then 16 else 10;
    var body := if hex then u[2..] else u;
    var ds := DigitPrefix(body, radix);
    if |ds| == 0 then None
    else Some(if negative then 0 - RadixValue(ds, radix) else RadixValue(ds, radix))
  }

  /** The radix reader and the decimal reader agree on decimal digits. */
  lemma {:induction false} RadixValueDecimal(ds: string)
    requires AllDigits(ds)
    ensures RadixValue(ds, 10) == DecimalValue(ds)
  {
    if |ds| > 0 {
      RadixValueDecimal(ds[..|ds| - 1]);
    }
  }

  /** Decimal digits no other reading applies to: no white space, no sign, no `0x`. */
  predicate PlainDecimal(ds: string)
  {
    |ds| > 0 && AllDigits(ds) && !(|ds| >= 2 && ds[0] == '0' && (ds[1] == 'x' || ds[1] == 'X'))
  }

  lemma PlainDecimalOf(ds: string)
    requires |ds| > 0 && AllDigits(ds)
    ensures PlainDecimal(ds) && !IsJsWhite(ds[0]) && DigitPrefix(ds, 10) == ds
  {
    if |ds| >= 2 {
      assert IsDigit(ds[1]);
    }
  }

  /** `parseInt` of decimal digits is their value. */
  lemma JsParseIntOfDigits(ds: string)
    requires |ds| > 0 && AllDigits(ds)
    ensures JsParseInt(ds) == Some(DecimalValue(ds))
  {
    PlainDecimalOf(ds);
    assert TrimStartJsWhite(ds) == ds;
    RadixValueDecimal(ds);
  }

  /** `parseInt` of a minus sign and decimal digits is their value negated. */
  lemma JsParseIntOfNegated(ds: string)
    requires |ds| > 0 && AllDigits(ds)
    ensures JsParseInt("-" + ds) == Some(0 - DecimalValue(ds))
  {
    var s := "-" + ds;
    PlainDecimalOf(ds);
    assert s[0] == '-' && !IsJsWhite('-');
    assert TrimStartJsWhite(s) == s;
    assert s[1..] == ds;
    assert PlainDecimal(s[1..]);
    RadixValueDecimal(ds);
  }

  /** `parseInt` reads back what `Int32.ToString` writes, for every integer. */
  lemma JsParseIntOfIntToString(n: int)
    ensures JsParseInt(IntToString(n)) == Some(n)
  {
    if n < 0 {
      JsParseIntOfNegated(NatToDecimal(-n));
      DecimalValueOfNatToDecimal(-n);
    } else {
      JsParseIntOfDigits(NatToDecimal(n));
      DecimalValueOfNatToDecimal(n);
    }
  }

  /** `parseInt` of one decimal digit is that digit's value. */
  lemma JsParseIntOfDigit(c: char)
    requires IsDigit(c)
    ensures JsParseInt([c]) == Some(DigitValue(c))
  {
    var s := [c];
    assert TrimStartJsWhite(s) == s;
    assert s[1..] == "";
    assert DigitPrefix(s, 10) == s;
    assert s[..|s| - 1] == "";
    assert RadixValue(s, 10) == RadixValue("", 10) * 10 + DigitValue(c);
  }

  /** `parseInt` on the option values the role select emits. */
  lemma JsParseIntOfRoleOptions()
    ensures JsParseInt("0") == Some(0) && JsParseInt("1") == Some(1) && JsParseInt("2") == Some(2)
  {
    JsParseIntOfDigit('0');
    JsParseIntOfDigit('1');
    JsParseIntOfDigit('2');
  }

  /** No digits is NaN, and parsing stops at the first character that is not a digit. */
  lemma JsParseIntStopsAtNonDigit()
    ensures JsParseInt("") == None && JsParseInt("x") == None && JsParseInt(" 2px") == Some(2)
  {
    assert DigitPrefix("", 10) == "";
    assert DigitPrefix("x", 10) == "";
    assert TrimStartJsWhite(" 2px") == "2px";
    assert DigitPrefix("px", 10) == "";
    assert DigitPrefix("2px", 10) == "2";
  }
}
