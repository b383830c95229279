/**
 * The few JavaScript built-in behaviours the services rely on:
 *  - turning an integral Number into its decimal string (template literals,
 *    string concatenation with a number);
 *  - the relational operator `<` on two strings, which compares UTF-16 code
 *    units lexicographically (the IsLessThan abstract operation of ECMA-262).
 */
module JsRuntime {
  import opened Wrappers

  // ---------------------------------------------------------------------------
  // Number to string (integral values below 10^21 in magnitude)
  // ---------------------------------------------------------------------------

  predicate IsDigit(c: char) {
    '0' <= c <= '9'
  }

  predicate AllDigits(s: string) {
    forall i :: 0 <= i < |s| ==> IsDigit(s[i])
  }

  function DigitChar(d: nat): (c: char)
    requires d < 10
    ensures IsDigit(c) && c as int - '0' as int == d
  {
    (('0' as int) + d) as char
  }

  /** Decimal rendering of a non-negative integer, without leading zeros. */
  function NatToString(n: nat): (s: string)
    ensures |s| >= 1 && AllDigits(s)
    ensures s[0] == '0' ==> n == 0
  {
    if n < 10 then [DigitChar(n)] else NatToString(n / 10) + [DigitChar(n % 10)]
  }

  /** `${n}` for an integral Number n. */
  function IntToString(n: int): (s: string)
    ensures |s| >= 1
    ensures n < 0 <==> s[0] == '-'
  {
    if n < 0 then "-" + NatToString(-n) else NatToString(n)
  }

  /** `${v}` for a number that may be `undefined`. */
  function TemplateNumber(v: Option<int>): (s: string)
    ensures v.None? ==> s == "undefined"
    ensures v.Some? ==> ParseInt(s) == Some(v.value)
  {
    match v
    case Some(n) => IntToStringRoundTrip(n); IntToString(n)
    case None => "undefined"
  }

  /** The value of a string of decimal digits. */
  function DigitsValue(s: string): nat
    requires AllDigits(s)
  {
    if s == [] then 0 else 10 * DigitsValue(s[..|s| - 1]) + (s[|s| - 1] as int - '0' as int)
  }

  function ParseNat(s: string): Option<nat> {
    if s != [] && AllDigits(s) then Some(DigitsValue(s)) else None
  }

  /** Reads back an optionally signed decimal integer. */
  function ParseInt(s: string): Option<int> {
    if |s| > 0 && s[0] == '-' then
      match ParseNat(s[1..])
      case Some(n) => Some(-(n as int))
      case None => None
    else ParseNat(s)
  }

  lemma {:induction false} NatToStringRoundTrip(n: nat)
    ensures ParseNat(NatToString(n)) == Some(n)
  {
    if n >= 10 {
      NatToStringRoundTrip(n / 10);
      var s := NatToString(n);
      assert s[..|s| - 1] == NatToString(n / 10);
      assert s[|s| - 1] as int - '0' as int == n % 10;
      assert DigitsValue(s) == 10 * (n / 10) + n % 10;
    }
  }

  lemma IntToStringRoundTrip(n: int)
    ensures ParseInt(IntToString(n)) == Some(n)
  {
    if n < 0 {
      NatToStringRoundTrip(-n);
      assert IntToString(n)[1..] == NatToString(-n);
    } else {
      NatToStringRoundTrip(n);
    }
  }

  /** Distinct integers render as distinct strings. */
  lemma IntToStringInjective(a: int, b: int)
    ensures IntToString(a) == IntToString(b) ==> a == b
  {
    IntToStringRoundTrip(a);
    IntToStringRoundTrip(b);
  }

  // ---------------------------------------------------------------------------
  // Strings as UTF-16 code units, and the string `<` operator
  // ---------------------------------------------------------------------------

  /** The UTF-16 encoding of one Unicode scalar value. */
  function CodeUnits(c: char): (r: seq<int>)
    ensures |r| == 1 || |r| == 2
    ensures forall i :: 0 <= i < |r| ==> 0 <= r[i] < 0x10000
  {
    var v := c as int;
    if v < 0x10000 then [v]
    else [0xD800 + (v - 0x10000) / 0x400, 0xDC00 + (v - 0x10000) % 0x400]
  }

  /** The sequence of UTF-16 code units JavaScript sees for a string. */
  function Utf16(s: string): (r: seq<int>)
    ensures |s| <= |r| <= 2 * |s|
  {
    if s == [] then [] else CodeUnits(s[0]) + Utf16(s[1..])
  }

  /**
   * Lexicographic order on code-unit sequences: a proper prefix comes first,
   * otherwise the first differing unit decides.
   */
  predicate LexLess(a: seq<int>, b: seq<int>) {
    if |b| == 0 then false
    else if |a| == 0 then true
    else if a[0] != b[0] then a[0] < b[0]
    else LexLess(a[1..], b[1..])
  }

  /**
   * The position of a character in UTF-16 code-unit order. Characters below
   * U+D800 keep their value; characters outside the Basic Multilingual Plane
   * (whose first code unit is a high surrogate) come next; the characters
   * U+E000 to U+FFFF come last.
   */
  function Utf16Rank(c: char): (r: int)
    ensures 0 <= r < 0x11_0000
  {
    var v := c as int;
    if v < 0xD800 then v
    else if v >= 0x10000 then 0xD800 + (v - 0x10000)
    else v - 0xE000 + 0x10_D800
  }

  /** JavaScript's `<` on two one-character strings. */
  predicate CharLess(a: char, b: char) {
    Utf16Rank(a) < Utf16Rank(b)
  }

  /**
   * JavaScript's `x < y` when both operands are strings: a proper prefix comes
   * first, otherwise the first differing character decides. The lemma
   * StringLessIsCodeUnitOrder shows this is the comparison of the strings'
   * UTF-16 code units.
   */
  predicate StringLess(x: string, y: string) {
    if |y| == 0 then false
    else if |x| == 0 then true
    else if x[0] != y[0] then CharLess(x[0], y[0])
    else StringLess(x[1..], y[1..])
  }

  // ---------------------------------------------------------------------------
  // StringLess is the code-unit order, and a strict total order
  // ---------------------------------------------------------------------------

  /** Distinct characters have distinct ranks. */
  lemma Utf16RankInjective(a: char, b: char)
    ensures Utf16Rank(a) == Utf16Rank(b) ==> a == b
  {
  }

  /** A common prefix does not change the comparison. */
  lemma {:induction false} LexLessCommonPrefix(c: seq<int>, r: seq<int>, t: seq<int>)
    ensures LexLess(c + r, c + t) == LexLess(r, t)
  {
    if c != [] {
      assert |c + r| > 0 && |c + t| > 0 && (c + r)[0] == (c + t)[0];
      assert (c + r)[1..] == c[1..] + r && (c + t)[1..] == c[1..] + t;
      LexLessCommonPrefix(c[1..], r, t);
    } else {
      assert c + r == r && c + t == t;
    }
  }

  /** Two distinct characters: their code units decide, whatever follows. */
  lemma CharLessIsCodeUnitOrder(a: char, b: char, r: seq<int>, t: seq<int>)
    requires a != b
    ensures LexLess(CodeUnits(a) + r, CodeUnits(b) + t) == CharLess(a, b)
  {
  }

  /** StringLess compares the UTF-16 code units of the two strings. */
  lemma {:induction false} StringLessIsCodeUnitOrder(x: string, y: string)
    ensures StringLess(x, y) == LexLess(Utf16(x), Utf16(y))
  {
    if |x| > 0 && |y| > 0 {
      assert Utf16(x) == CodeUnits(x[0]) + Utf16(x[1..]);
      assert Utf16(y) == CodeUnits(y[0]) + Utf16(y[1..]);
      if x[0] == y[0] {
        LexLessCommonPrefix(CodeUnits(x[0]), Utf16(x[1..]), Utf16(y[1..]));
        StringLessIsCodeUnitOrder(x[1..], y[1..]);
      } else {
        CharLessIsCodeUnitOrder(x[0], y[0], Utf16(x[1..]), Utf16(y[1..]));
      }
    }
  }

  lemma {:induction false} StringLessIrreflexive(x: string)
    ensures !StringLess(x, x)
  {
    if |x| > 0 {
      StringLessIrreflexive(x[1..]);
    }
  }

  lemma {:induction false} StringLessAsymmetric(x: string, y: string)
    ensures StringLess(x, y) ==> !StringLess(y, x)
  {
    if |x| > 0 && |y| > 0 && x[0] == y[0] {
      StringLessAsymmetric(x[1..], y[1..]);
    }
  }

  lemma {:induction false} StringLessTransitive(x: string, y: string, z: string)
    ensures StringLess(x, y) && StringLess(y, z) ==> StringLess(x, z)
  {
    if |x| > 0 && |y| > 0 && |z| > 0 {
      StringLessTransitive(x[1..], y[1..], z[1..]);
    }
  }

  /** Two strings neither of which is below the other are equal. */
  lemma {:induction false} StringLessTotal(x: string, y: string)
    ensures !StringLess(x, y) && !StringLess(y, x) ==> x == y
  {
    if |x| > 0 && |y| > 0 {
      Utf16RankInjective(x[0], y[0]);
      if x[0] == y[0] {
        StringLessTotal(x[1..], y[1..]);
        if x[1..] == y[1..] {
          assert x == [x[0]] + x[1..] && y == [y[0]] + y[1..];
        }
      }
    }
  }
}
