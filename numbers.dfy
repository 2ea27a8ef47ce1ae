/** The .NET number and boolean text conversions the profile code relies on:
    `int.TryParse`, `long.TryParse` and `bool.TryParse` with their default
    styles, `ToString()` of integers and booleans, and the unchecked
    (wrap-around) arithmetic of `int` and `long`. */
module Numbers {
  import opened Wrappers

  const Int32Min: int := -0x8000_0000
  const Int32Max: int := 0x7FFF_FFFF
  const Int64Min: int := -0x8000_0000_0000_0000
  const Int64Max: int := 0x7FFF_FFFF_FFFF_FFFF

  /** A C# `int` and a C# `long`. */
  type Int32 = x: int | Int32Min <= x <= Int32Max
  type Int64 = x: int | Int64Min <= x <= Int64Max

  // ---------------------------------------------------------------------
  // Unchecked arithmetic

  /** The value a C# `long` expression of mathematical value `x` has when
      evaluated without overflow checking (two's complement wrap-around). */
  function Wrap64(x: int): (r: Int64)
    ensures (r - x) % 0x1_0000_0000_0000_0000 == 0
    ensures Int64Min <= x <= Int64Max ==> r == x
  {
    (x - Int64Min) % 0x1_0000_0000_0000_0000 + Int64Min
  }

  /** The same for a C# `int`. */
  function Wrap32(x: int): (r: Int32)
    ensures (r - x) % 0x1_0000_0000 == 0
    ensures Int32Min <= x <= Int32Max ==> r == x
  {
    (x - Int32Min) % 0x1_0000_0000 + Int32Min
  }

  // ---------------------------------------------------------------------
  // Whitespace trimming as done by the default number styles

  /** The white space allowed around a number: U+0009 to U+000D and U+0020. */
  predicate IsWhite(c: char) {
    c == ' ' || '\t' <= c <= '\r'
  }

  function TrimStart(s: string): (r: string)
    ensures |r| <= |s|
    ensures r == [] || !IsWhite(r[0])
  {
    if s != [] && IsWhite(s[0]) then TrimStart(s[1..]) else s
  }

  function TrimEnd(s: string): (r: string)
    ensures |r| <= |s|
    ensures r == [] || !IsWhite(r[|r| - 1])
  {
    if s != [] && IsWhite(s[|s| - 1]) then TrimEnd(s[..|s| - 1]) else s
  }

  /** Trimming the start leaves a suffix, everything before it white space. */
  lemma {:induction false} TrimStartSuffix(s: string)
    ensures TrimStart(s) == s[|s| - |TrimStart(s)|..]
    ensures forall i :: 0 <= i < |s| - |TrimStart(s)| ==> IsWhite(s[i])
  {
    if s != [] && IsWhite(s[0]) {
      TrimStartSuffix(s[1..]);
      assert s[1..][|s| - 1 - |TrimStart(s)|..] == s[|s| - |TrimStart(s)|..];
    }
  }

  /** Trimming the end leaves a prefix, everything after it white space. */
  lemma {:induction false} TrimEndPrefix(s: string)
    ensures TrimEnd(s) == s[..|TrimEnd(s)|]
    ensures forall i :: |TrimEnd(s)| <= i < |s| ==> IsWhite(s[i])
  {
    if s != [] && IsWhite(s[|s| - 1]) {
      TrimEndPrefix(s[..|s| - 1]);
      assert s[..|s| - 1][..|TrimEnd(s)|] == s[..|TrimEnd(s)|];
    }
  }

  function Trim(s: string): string {
    TrimEnd(TrimStart(s))
  }

  // ---------------------------------------------------------------------
  // Decimal digits

  predicate IsDigit(c: char) {
    '0' <= c <= '9'
  }

  predicate AllDigits(s: string) {
    forall i :: 0 <= i < |s| ==> IsDigit(s[i])
  }

  function DigitChar(d: nat): (c: char)
    requires d < 10
    ensures IsDigit(c)
  {
    ['0', '1', '2', '3', '4', '5', '6', '7', '8', '9'][d]
  }

  function DigitValue(c: char): (d: nat)
    requires IsDigit(c)
    ensures d < 10
  {
    (c as int - '0' as int) as nat
  }

  /** The value of a string of decimal digits, most significant first. */
  function DigitsValue(s: string): nat
    requires AllDigits(s)
  {
    if s == [] then 0 else DigitsValue(s[..|s| - 1]) * 10 + DigitValue(s[|s| - 1])
  }

  /** The shortest decimal digits of `n` (no leading zeros). */
  function NatDigits(n: nat): (s: string)
    ensures s != [] && AllDigits(s)
  {
    if n < 10 then [DigitChar(n)] else NatDigits(n / 10) + [DigitChar(n % 10)]
  }

  lemma {:induction false} NatDigitsValue(n: nat)
    ensures DigitsValue(NatDigits(n)) == n
  {
    if n >= 10 {
      var s := NatDigits(n);
      assert s[..|s| - 1] == NatDigits(n / 10);
      NatDigitsValue(n / 10);
      assert DigitValue(DigitChar(n % 10)) == n % 10;
    } else {
      assert DigitValue(DigitChar(n)) == n;
    }
  }

  // ---------------------------------------------------------------------
  // Integer text

  /** `TryParse` of an integer type whose range is `lo..hi` with the default
      style: optional white space, an optional `+` or `-`, at least one
      decimal digit, optional white space; the value must lie in the range. */
  function ParseInteger(s: string, lo: int, hi: int): (r: Option<int>)
    ensures r.Some? ==> lo <= r.value <= hi
  {
    var t := Trim(s);
    var negative := t != [] && t[0] == '-';
    var body := if t != [] && (t[0] == '-' || t[0] == '+') then t[1..] else t;
    if body == [] || !AllDigits(body) then None
    else
      var v: int := if negative then -(DigitsValue(body) as int) else DigitsValue(body);
      if lo <= v <= hi then Some(v) else None
  }

  /** `int.TryParse`. */
  function ParseInt32(s: string): (r: Option<Int32>)
    ensures r.Some? <==> ParseInteger(s, Int32Min, Int32Max).Some?
    ensures r.Some? ==> r.value == ParseInteger(s, Int32Min, Int32Max).value
  {
    var p := ParseInteger(s, Int32Min, Int32Max);
    if p.Some? then Some(p.value) else None
  }

  /** `long.TryParse`. */
  function ParseInt64(s: string): (r: Option<Int64>)
    ensures r.Some? <==> ParseInteger(s, Int64Min, Int64Max).Some?
    ensures r.Some? ==> r.value == ParseInteger(s, Int64Min, Int64Max).value
  {
    var p := ParseInteger(s, Int64Min, Int64Max);
    if p.Some? then Some(p.value) else None
  }

  /** `ToString()` of an integer: a minus sign for negative values, then the
      shortest decimal digits. */
  function ShowInt(x: int): (s: string)
    ensures s != [] && !IsWhite(s[0]) && IsDigit(s[|s| - 1])
  {
    if x < 0 then "-" + NatDigits(-x) else NatDigits(x)
  }

  /** Printing an integer and parsing it back gives the integer. */
  lemma ParseShowInt(x: int, lo: int, hi: int)
    requires lo <= x <= hi
    ensures ParseInteger(ShowInt(x), lo, hi) == Some(x)
  {
    if x < 0 {
      NatDigitsValue(-x);
      ParseSigned(NatDigits(-x), lo, hi);
    } else {
      NatDigitsValue(x);
      ParseUnsigned(NatDigits(x), lo, hi);
    }
  }

  /** A minus sign followed by digits parses as the negated value of the
      digits. */
  lemma ParseSigned(d: string, lo: int, hi: int)
    requires d != [] && AllDigits(d) && lo <= -(DigitsValue(d) as int) <= hi
    ensures ParseInteger("-" + d, lo, hi) == Some(-(DigitsValue(d) as int))
  {
    var t := "-" + d;
    SignDropped(t, d);
    assert TrimStart(t) == t;
    assert IsDigit(t[|t| - 1]);
    assert TrimEnd(t) == t;
    ParseNegative(t, lo, hi);
  }

  lemma SignDropped(t: string, d: string)
    requires t == "-" + d && d != []
    ensures t[0] == '-' && t[1..] == d && t[|t| - 1] == d[|d| - 1]
  {
  }

  lemma ParseNegative(t: string, lo: int, hi: int)
    requires Trim(t) == t && |t| > 1 && t[0] == '-' && AllDigits(t[1..])
    ensures ParseInteger(t, lo, hi) ==
              if lo <= -(DigitsValue(t[1..]) as int) <= hi then Some(-(DigitsValue(t[1..]) as int)) else None
  {
  }

  /** Digits parse as their value. */
  lemma ParseUnsigned(d: string, lo: int, hi: int)
    requires d != [] && AllDigits(d) && lo <= DigitsValue(d) <= hi
    ensures ParseInteger(d, lo, hi) == Some(DigitsValue(d) as int)
  {
    assert IsDigit(d[0]) && IsDigit(d[|d| - 1]);
    assert TrimStart(d) == d;
    assert TrimEnd(d) == d;
  }

  lemma ParseShowInt32(x: Int32)
    ensures ParseInt32(ShowInt(x)) == Some(x)
  {
    ParseShowInt(x, Int32Min, Int32Max);
  }

  lemma ParseShowInt64(x: Int64)
    ensures ParseInt64(ShowInt(x)) == Some(x)
  {
    ParseShowInt(x, Int64Min, Int64Max);
  }

  // ---------------------------------------------------------------------
  // Boolean text

  function LowerAscii(c: char): char {
    if 'A' <= c <= 'Z' then (c as int - 'A' as int + 'a' as int) as char else c
  }

  function LowerAsciiString(s: string): (r: string)
    ensures |r| == |s|
  {
    seq(|s|, i requires 0 <= i < |s| => LowerAscii(s[i]))
  }

  /** `bool.TryParse`: "True" or "False" in any letter case, possibly
      surrounded by white space. */
  function ParseBool(s: string): Option<bool> {
    var t := LowerAsciiString(Trim(s));
    if t == "true" then Some(true) else if t == "false" then Some(false) else None
  }

  /** `b.ToString().ToLowerInvariant()`. */
  function BoolText(b: bool): string {
    if b then "true" else "false"
  }

  lemma ParseBoolText(b: bool)
    ensures ParseBool(BoolText(b)) == Some(b)
  {
    var s := BoolText(b);
    assert TrimStart(s) == s;
    assert TrimEnd(s) == s;
    assert LowerAsciiString(s) == s;
  }
}
