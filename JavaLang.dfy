/** The few java.lang behaviours the plugin relies on: 32-bit `int`
    arithmetic, `Integer.parseInt`, `Integer.toString` (what
    `StringBuilder.append(int)` writes) and `Boolean.parseBoolean`. */
module JavaLang {
  import opened Wrappers

  const MinInt32: int := -0x8000_0000
  const MaxInt32: int := 0x7FFF_FFFF
  const MaxInt64: int := 0x7FFF_FFFF_FFFF_FFFF

  predicate IsInt32(x: int) {
    MinInt32 <= x <= MaxInt32
  }

  /** The value a Java `int` operation yields for the exact result `x`:
      two's-complement wrap-around modulo 2^32. */
  function Wrap32(x: int): (r: int)
    ensures IsInt32(r)
    ensures (r - x) % 0x1_0000_0000 == 0
    ensures r == x <==> IsInt32(x)
  {
    (x - MinInt32) % 0x1_0000_0000 + MinInt32
  }

  // ---------------------------------------------------------------------
  // Decimal digits

  predicate IsDigit(c: char) {
    '0' <= c <= '9'
  }

  predicate AllDigits(s: string) {
    forall i :: 0 <= i < |s| ==> IsDigit(s[i])
  }

  function DigitChar(d: nat): (c: char)
    requires d < 10
    ensures IsDigit(c) && c as int - '0' as int == d
  {
    ('0' as int + d) as char
  }

  /** The value of a string of decimal digits, most significant first. */
  function DigitsValue(s: string): nat
    requires AllDigits(s)
  {
    if s == [] then 0
    else DigitsValue(s[..|s| - 1]) * 10 + (s[|s| - 1] as int - '0' as int)
  }

  /** Decimal rendering of a natural number, without leading zeros. */
  function NatToString(n: nat): (s: string)
    ensures |s| >= 1 && AllDigits(s)
    ensures n < 10 <==> |s| == 1
  {
    if n < 10 then [DigitChar(n)] else NatToString(n / 10) + [DigitChar(n % 10)]
  }

  /** `Integer.toString(n)`: a minus sign for negative values, then the digits. */
  function IntToString(n: int): string {
    if n < 0 then "-" + NatToString(-n) else NatToString(n)
  }

  /** `Integer.parseInt(s)` in radix 10: an optional sign, at least one
      digit, and a value that fits in an `int`; anything else throws
      NumberFormatException. */
  function ParseInt(s: string): (r: Result<int>)
    ensures r.Ok? ==> IsInt32(r.value)
    ensures s == [] ==> r == Err(NumberFormatException)
    ensures r.Ok? && s[0] == '-' ==> r.value <= 0
    ensures r.Ok? && s[0] != '-' ==> r.value >= 0
  {
    if s == [] then Err(NumberFormatException)
    else
      var digits := if s[0] == '-' || s[0] == '+' then s[1..] else s;
      if digits == [] || !AllDigits(digits) then Err(NumberFormatException)
      else
        var v: int := if s[0] == '-' then 0 - DigitsValue(digits) as int else DigitsValue(digits) as int;
        if IsInt32(v) then Ok(v) else Err(NumberFormatException)
  }

  /** The text after an optional leading sign. */
  function Unsigned(s: string): string {
    if |s| > 0 && (s[0] == '-' || s[0] == '+') then s[1..] else s
  }

  /** The shape `Integer.parseInt` accepts: an optional sign, then at least
      one decimal digit. */
  predicate WellFormedInt(s: string) {
    Unsigned(s) != [] && AllDigits(Unsigned(s))
  }

  /** The value a well-formed decimal text denotes. */
  function SignedValue(s: string): int
    requires WellFormedInt(s)
  {
    if s[0] == '-' then 0 - DigitsValue(Unsigned(s)) else DigitsValue(Unsigned(s))
  }

  /** `Integer.parseInt` throws exactly on malformed text and on values
      outside the `int` range, and otherwise yields the denoted value. */
  lemma ParseIntExact(s: string)
    ensures ParseInt(s).Err? <==> !WellFormedInt(s) || !IsInt32(SignedValue(s))
    ensures ParseInt(s).Err? ==> ParseInt(s).error == NumberFormatException
    ensures ParseInt(s).Ok? ==> ParseInt(s).value == SignedValue(s)
  {
  }

  lemma {:induction false} DigitsValueOfNatToString(n: nat)
    ensures DigitsValue(NatToString(n)) == n
  {
    if n >= 10 {
      var s := NatToString(n);
      assert s[..|s| - 1] == NatToString(n / 10);
      DigitsValueOfNatToString(n / 10);
    }
  }

  /** `Integer.parseInt` inverts `Integer.toString` on every `int`. */
  lemma ParseIntOfIntToString(n: int)
    requires IsInt32(n)
    ensures ParseInt(IntToString(n)) == Ok(n)
  {
    var s := IntToString(n);
    if n < 0 {
      var d := NatToString(-n);
      assert s == "-" + d && s[0] == '-' && s[1..] == d;
      DigitsValueOfNatToString(-n);
      assert DigitsValue(d) == -n;
    } else {
      var d := NatToString(n);
      assert s == d && IsDigit(d[0]);
      DigitsValueOfNatToString(n);
      assert DigitsValue(d) == n;
    }
  }

  /** Distinct `int` values render as distinct strings. */
  lemma IntToStringInjective(a: int, b: int)
    requires IsInt32(a) && IsInt32(b) && a != b
    ensures IntToString(a) != IntToString(b)
  {
    ParseIntOfIntToString(a);
    ParseIntOfIntToString(b);
  }

  // ---------------------------------------------------------------------
  // Booleans

  function ToLowerAscii(c: char): char {
    if 'A' <= c <= 'Z' then (c as int + 32) as char else c
  }

  function ToUpperAscii(c: char): char {
    if 'a' <= c <= 'z' then (c as int - 32) as char else c
  }

  /** `String.equalsIgnoreCase` restricted to ASCII case folding: same
      length, and each pair of characters equal after upper-casing or after
      lower-casing. */
  predicate EqualsIgnoreCase(a: string, b: string) {
    |a| == |b| &&
    forall i :: 0 <= i < |a| ==>
      a[i] == b[i] || ToUpperAscii(a[i]) == ToUpperAscii(b[i]) || ToLowerAscii(a[i]) == ToLowerAscii(b[i])
  }

  /** `Boolean.parseBoolean(s)` for a non-null `s`: true exactly for "true"
      in any letter case. */
  function ParseBoolean(s: string): (r: bool)
    ensures r <==> EqualsIgnoreCase(s, "true")
  {
    |s| == 4 && ToLowerAscii(s[0]) == 't' && ToLowerAscii(s[1]) == 'r'
             && ToLowerAscii(s[2]) == 'u' && ToLowerAscii(s[3]) == 'e'
  }

  /** `Boolean.toString(b)`. */
  function BooleanToString(b: bool): (s: string)
    ensures ParseBoolean(s) == b
  {
    if b then "true" else "false"
  }
}
