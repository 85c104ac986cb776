/**
  The parts of the Java platform library that the restaurant code relies on, stated as
  functions: UTF-16 text (`String`, `char`), `String.trim`, `Character.isWhitespace`,
  `Integer.parseInt` / `Long.parseLong`, `Integer.toString` / `Long.toString`, the
  narrowing conversion to `int`, `String.startsWith`, `String.endsWith` and
  `String.toLowerCase(Locale.ROOT)` on ASCII letters.
*/
module JavaLang {

  /** A Java `char`: one UTF-16 code unit. */
  type Unit = x: int | 0 <= x < 0x1_0000

  /** A Java `String`: a sequence of UTF-16 code units (lone surrogates included). */
  type Text = seq<Unit>

  /** Java's `null` or a present value. */
  datatype Option<+T> = None | Some(value: T)

  const INT_MIN: int := -0x8000_0000
  const INT_MAX: int := 0x7FFF_FFFF
  const LONG_MIN: int := -0x8000_0000_0000_0000
  const LONG_MAX: int := 0x7FFF_FFFF_FFFF_FFFF

  /** Java `int` and `long` values. */
  type Int32 = n: int | -0x8000_0000 <= n <= 0x7FFF_FFFF
  type Int64 = n: int | -0x8000_0000_0000_0000 <= n <= 0x7FFF_FFFF_FFFF_FFFF

  predicate IsBmp(s: string)
  {
    forall k | 0 <= k < |s| :: s[k] as int < 0x1_0000
  }

  /** A Java string literal: every character of the source literals lies in the BMP. */
  function Lit(s: string): (t: Text)
    requires IsBmp(s)
    ensures |t| == |s|
    ensures forall k | 0 <= k < |s| :: t[k] == s[k] as int
  {
    seq(|s|, k requires 0 <= k < |s| => s[k] as int)
  }

  /** The narrowing conversion of an integer to `int`: keep the low 32 bits, two's complement. */
  function Wrap32(n: int): (r: Int32)
    ensures (r - n) % 0x1_0000_0000 == 0
    ensures INT_MIN <= n <= INT_MAX ==> r == n
  {
    var m := n % 0x1_0000_0000;
    if m > INT_MAX then m - 0x1_0000_0000 else m
  }

  /** `Math.max(a, b)`. */
  function Max(a: int, b: int): (r: int)
    ensures r >= a && r >= b && (r == a || r == b)
  {
    if a >= b then a else b
  }

  /**
    `Character.isWhitespace(char)`: the C0 separators U+0009..U+000D and U+001C..U+001F,
    and the space, line and paragraph separators of the BMP except the no-break spaces
    U+00A0, U+2007 and U+202F.
  */
  predicate IsWhitespace(c: Unit)
  {
    || 0x09 <= c <= 0x0D
    || 0x1C <= c <= 0x20
    || c == 0x1680
    || 0x2000 <= c <= 0x2006
    || 0x2008 <= c <= 0x200A
    || c == 0x2028 || c == 0x2029 || c == 0x205F || c == 0x3000
  }

  /** The code units `String.trim` strips from both ends: everything up to U+0020. */
  predicate IsTrimmable(c: Unit)
  {
    c <= 0x20
  }

  /** Where `String.trim` starts: the first unit that is not trimmable. */
  function TrimStart(s: Text): (a: nat)
    ensures a <= |s|
    ensures forall k | 0 <= k < a :: IsTrimmable(s[k])
    ensures a < |s| ==> !IsTrimmable(s[a])
  {
    if s == [] || !IsTrimmable(s[0]) then 0 else 1 + TrimStart(s[1..])
  }

  /** Where `String.trim` stops: one past the last unit at or after `lo` that is not trimmable. */
  function TrimEnd(s: Text, lo: nat): (b: nat)
    requires lo <= |s|
    ensures lo <= b <= |s|
    ensures forall k | b <= k < |s| :: IsTrimmable(s[k])
    ensures b > lo ==> !IsTrimmable(s[b - 1])
    decreases |s|
  {
    if |s| == lo || !IsTrimmable(s[|s| - 1]) then |s| else TrimEnd(s[..|s| - 1], lo)
  }

  /** `String.trim()`. */
  function Trim(s: Text): (t: Text)
    ensures t == [] || (!IsTrimmable(t[0]) && !IsTrimmable(t[|t| - 1]))
    ensures (s == [] || (!IsTrimmable(s[0]) && !IsTrimmable(s[|s| - 1]))) ==> t == s
  {
    var a := TrimStart(s);
    s[a..TrimEnd(s, a)]
  }

  /** `String.startsWith(prefix, offset)`. */
  predicate StartsWithAt(s: Text, prefix: Text, offset: nat)
  {
    offset + |prefix| <= |s| && s[offset..offset + |prefix|] == prefix
  }

  /** `String.endsWith(suffix)`. */
  predicate EndsWith(s: Text, suffix: Text)
  {
    |suffix| <= |s| && s[|s| - |suffix|..] == suffix
  }

  /** `Character.toLowerCase` restricted to the ASCII letters. */
  function LowerUnit(c: Unit): Unit
  {
    if 0x41 <= c <= 0x5A then c + 0x20 else c
  }

  /** `String.toLowerCase(Locale.ROOT)` restricted to the ASCII letters. */
  function Lower(s: Text): (t: Text)
    ensures |t| == |s|
    ensures forall k | 0 <= k < |s| :: t[k] == LowerUnit(s[k])
  {
    seq(|s|, k requires 0 <= k < |s| => LowerUnit(s[k]))
  }

  /** Lower-casing a lower-cased text changes nothing. */
  lemma LowerIdempotent(s: Text)
    ensures Lower(Lower(s)) == Lower(s)
  {
    assert forall k | 0 <= k < |s| :: Lower(Lower(s))[k] == Lower(s)[k];
  }

  /** `Character.digit(c, 36)` on ASCII: the digit's value, or -1. */
  function DigitValue(c: Unit): (d: int)
    ensures -1 <= d < 36
  {
    if 0x30 <= c <= 0x39 then c - 0x30
    else if 0x61 <= c <= 0x7A then c - 0x61 + 10
    else if 0x41 <= c <= 0x5A then c - 0x41 + 10
    else -1
  }

  predicate IsDigitIn(c: Unit, radix: nat)
  {
    0 <= DigitValue(c) < radix
  }

  /** `Character.isDigit` restricted to ASCII. */
  predicate IsDecimalDigit(c: Unit)
  {
    0x30 <= c <= 0x39
  }

  predicate AllDigits(ds: Text, radix: nat)
  {
    forall k | 0 <= k < |ds| :: IsDigitIn(ds[k], radix)
  }

  /** The value of a run of digits, most significant first. */
  function NumeralValue(ds: Text, radix: nat): (v: nat)
    requires AllDigits(ds, radix)
  {
    if ds == [] then 0 else NumeralValue(ds[..|ds| - 1], radix) * radix + DigitValue(ds[|ds| - 1])
  }

  const MINUS: Unit := 0x2D
  const PLUS: Unit := 0x2B

  /**
    `Integer.parseInt(s, radix)` when `[lo, hi]` is the `int` range, `Long.parseLong(s, radix)`
    when it is the `long` range: an optional sign, then at least one digit; `None` stands
    for the `NumberFormatException`.
  */
  function ParseInteger(s: Text, radix: nat, lo: int, hi: int): (r: Option<int>)
    ensures r.Some? ==> lo <= r.value <= hi
    ensures r.Some? ==> s != [] && (s[0] == MINUS || s[0] == PLUS || IsDigitIn(s[0], radix))
  {
    if s == [] then None
    else
      var signed := s[0] == MINUS || s[0] == PLUS;
      var ds := if signed then s[1..] else s;
      if ds == [] || !AllDigits(ds, radix) then None
      else
        var v: int := if s[0] == MINUS then 0 - NumeralValue(ds, radix) else NumeralValue(ds, radix);
        if lo <= v <= hi then Some(v) else None
  }

  /**
    The numeral is read the same whatever the range: `Integer.parseInt` accepts exactly the
    numerals `Long.parseLong` accepts whose value is an `int`.
  */
  lemma ParseIntegerWithin(s: Text, radix: nat, lo: int, hi: int, lo2: int, hi2: int)
    requires ParseInteger(s, radix, lo, hi).Some?
    ensures var n := ParseInteger(s, radix, lo, hi).value;
      ParseInteger(s, radix, lo2, hi2) == if lo2 <= n <= hi2 then Some(n) else None
  {
  }

  /** The decimal digits of a natural number, without leading zeros. */
  function DecimalDigits(n: nat): (ds: Text)
    ensures ds != [] && AllDigits(ds, 10) && NumeralValue(ds, 10) == n
    ensures forall k | 0 <= k < |ds| :: IsDecimalDigit(ds[k])
  {
    if n < 10 then [0x30 + n]
    else
      var ds := DecimalDigits(n / 10) + [0x30 + n % 10];
      assert ds[..|ds| - 1] == DecimalDigits(n / 10);
      ds
  }

  /** `Integer.toString(n)` and `Long.toString(n)`. */
  function DecimalText(n: int): (t: Text)
    ensures t != []
    ensures forall k | 0 <= k < |t| :: IsDecimalDigit(t[k]) || (k == 0 && t[k] == MINUS)
  {
    if n < 0 then [MINUS] + DecimalDigits(-n) else DecimalDigits(n)
  }

  /** `Integer.parseInt` and `Long.parseLong` read back what `toString` wrote. */
  lemma ParseDecimalText(n: int, lo: int, hi: int)
    requires lo <= n <= hi
    ensures ParseInteger(DecimalText(n), 10, lo, hi) == Some(n)
  {
    if n < 0 {
      assert DecimalText(n)[1..] == DecimalDigits(-n);
    }
  }
}
