/** The small part of the Java language and class library that the character
    map relies on, stated in Dafny's terms: 32-bit `int` values, truncating
    division, the digit conversions of `Integer`, the character classes of
    `java.util.regex` and `Character`, and ASCII case mapping. */
module JavaLang {

  datatype Option<+T> = None | Some(value: T)

  /** The range of a Java `int`. */
  const MIN_INT: int := -0x8000_0000
  const MAX_INT: int := 0x7FFF_FFFF

  predicate IsJavaInt(x: int) {
    MIN_INT <= x <= MAX_INT
  }

  /** Java's `/` on `int`: rounds toward zero (Dafny's `/` is Euclidean). */
  function JDiv(a: int, b: int): int
    requires b > 0
  {
    if a >= 0 then a / b else -((-a) / b)
  }

  /** Java's `%` on `int`: `a == (a / b) * b + a % b` with Java's `/`. */
  function JRem(a: int, b: int): (r: int)
    requires b > 0
    ensures JDiv(a, b) * b + r == a
  {
    a - JDiv(a, b) * b
  }

  /** The remainder takes the sign of the dividend and is smaller than the
      divisor in magnitude; on a non-negative dividend both operators agree
      with Euclidean division. */
  lemma JavaDivision(a: int, b: int)
    requires b > 0
    ensures a >= 0 ==> 0 <= JRem(a, b) < b && JDiv(a, b) >= 0
    ensures a < 0 ==> -b < JRem(a, b) <= 0 && JDiv(a, b) <= 0
    ensures a >= 0 ==> JDiv(a, b) == a / b && JRem(a, b) == a % b
  {
    if a >= 0 {
      EuclidNonNeg(a, b);
    } else {
      EuclidNonNeg(-a, b);
      assert JDiv(a, b) == -((-a) / b);
      NegMul((-a) / b, b);
    }
  }

  /** On non-negative operands: the quotient is non-negative and the
      remainder is what the division equation leaves. */
  lemma EuclidNonNeg(m: int, b: int)
    requires m >= 0 && b > 0
    ensures m / b >= 0 && 0 <= m % b < b && m - (m / b) * b == m % b
  {
  }

  lemma NegMul(q: int, b: int)
    ensures (-q) * b == -(q * b)
  {
  }

  /** `Math.abs` on values whose negation does not overflow. */
  function Abs(x: int): int {
    if x < 0 then -x else x
  }

  // ---------------------------------------------------------------------
  // Digits

  predicate IsDecDigit(c: char) {
    '0' <= c <= '9'
  }

  predicate IsHexDigit(c: char) {
    '0' <= c <= '9' || 'A' <= c <= 'F' || 'a' <= c <= 'f'
  }

  predicate IsUpperHexDigit(c: char) {
    '0' <= c <= '9' || 'A' <= c <= 'F'
  }

  /** The value of one hexadecimal digit, as `Character.digit(c, 16)`. */
  function HexDigitValue(c: char): (d: int)
    requires IsHexDigit(c)
    ensures 0 <= d < 16
  {
    if '0' <= c <= '9' then c as int - '0' as int
    else if 'A' <= c <= 'F' then c as int - 'A' as int + 10
    else c as int - 'a' as int + 10
  }

  /** The upper-case digit for a value below sixteen. */
  function HexDigitChar(d: int): (c: char)
    requires 0 <= d < 16
    ensures IsUpperHexDigit(c) && HexDigitValue(c) == d
  {
    if d < 10 then ('0' as int + d) as char else ('A' as int + d - 10) as char
  }

  /** The value of a string of hexadecimal digits, as `Integer.parseInt(s, 16)`
      when the value fits in an `int`. */
  function HexValue(s: string): (v: nat)
    requires forall i | 0 <= i < |s| :: IsHexDigit(s[i])
    decreases |s|
  {
    if s == [] then 0 else HexValue(s[..|s| - 1]) * 16 + HexDigitValue(s[|s| - 1])
  }

  /** `Integer.toHexString(n).toUpperCase()` for a non-negative `n`: the
      shortest upper-case hexadecimal numeral. */
  function HexString(n: nat): (s: string)
    decreases n
  {
    if n < 16 then [HexDigitChar(n)] else HexString(n / 16) + [HexDigitChar(n % 16)]
  }

  /** `Integer.toHexString(x).toUpperCase()` for any Java `int`: negative
      values print as their unsigned 32-bit two's complement. */
  function JavaHexString(x: int): string
    requires IsJavaInt(x)
  {
    if x >= 0 then HexString(x) else HexString(x + 0x1_0000_0000)
  }

  /** Sixteen to the power `k`. */
  function Pow16(k: nat): (p: nat)
    ensures p >= 1
  {
    if k == 0 then 1 else 16 * Pow16(k - 1)
  }

  /** The numeral has no leading zero and exactly as many digits as the
      number needs: at most `k` digits precisely when `n < 16^k`. */
  lemma {:induction false} HexStringShape(n: nat)
    ensures 1 <= |HexString(n)|
    ensures forall i | 0 <= i < |HexString(n)| :: IsUpperHexDigit(HexString(n)[i])
    ensures |HexString(n)| > 1 ==> HexString(n)[0] != '0'
    ensures forall k: nat | k >= 1 :: |HexString(n)| <= k <==> n < Pow16(k)
    decreases n
  {
    if n >= 16 {
      HexStringShape(n / 16);
      var s := HexString(n / 16);
      assert HexString(n) == s + [HexDigitChar(n % 16)];
      assert HexString(n)[0] == s[0];
      forall k: nat | k >= 1 ensures |HexString(n)| <= k <==> n < Pow16(k) {
        if k == 1 {
          assert Pow16(1) == 16;
        } else {
          assert |s| <= k - 1 <==> n / 16 < Pow16(k - 1);
        }
      }
    } else {
      forall k: nat | k >= 1 ensures n < Pow16(k) {
        assert Pow16(k) == 16 * Pow16(k - 1);
      }
    }
  }

  /** Reading back the numeral gives the number. */
  lemma {:induction false} HexStringRoundTrip(n: nat)
    ensures forall i | 0 <= i < |HexString(n)| :: IsHexDigit(HexString(n)[i])
    ensures HexValue(HexString(n)) == n
    decreases n
  {
    HexStringShape(n);
    if n >= 16 {
      var s := HexString(n / 16);
      HexStringRoundTrip(n / 16);
      assert HexString(n)[..|HexString(n)| - 1] == s;
    }
  }

  /** Leading zeros do not change the value of a hexadecimal numeral. */
  lemma {:induction false} HexValueLeadingZeros(z: nat, s: string)
    requires forall i | 0 <= i < |s| :: IsHexDigit(s[i])
    ensures forall i | 0 <= i < |Zeros(z) + s| :: IsHexDigit((Zeros(z) + s)[i])
    ensures HexValue(Zeros(z) + s) == HexValue(s)
    decreases |s|
  {
    if s == [] {
      ZerosValue(z);
      assert Zeros(z) + s == Zeros(z);
    } else {
      var t := Zeros(z) + s;
      assert t[..|t| - 1] == Zeros(z) + s[..|s| - 1];
      HexValueLeadingZeros(z, s[..|s| - 1]);
    }
  }

  /** A string of `n` zero digits. */
  function Zeros(n: nat): (s: string)
    ensures |s| == n && forall i | 0 <= i < n :: s[i] == '0'
  {
    seq(n, _ => '0')
  }

  lemma {:induction false} ZerosValue(n: nat)
    ensures HexValue(Zeros(n)) == 0
    decreases n
  {
    if n > 0 {
      assert Zeros(n)[..n - 1] == Zeros(n - 1);
      ZerosValue(n - 1);
    }
  }

  /** A numeral of `k` digits is below sixteen to the power `k`. */
  lemma {:induction false} HexValueBound(s: string)
    requires forall i | 0 <= i < |s| :: IsHexDigit(s[i])
    ensures HexValue(s) < Pow16(|s|)
    decreases |s|
  {
    if s != [] {
      var t := s[..|s| - 1];
      HexValueBound(t);
      assert HexValue(s) <= (Pow16(|t|) - 1) * 16 + 15;
    }
  }

  lemma {:induction false} Pow16Monotone(j: nat, k: nat)
    requires j <= k
    ensures Pow16(j) <= Pow16(k)
    decreases k
  {
    if j < k {
      Pow16Monotone(j, k - 1);
    }
  }

  /** Six hexadecimal digits or fewer stay below 0x1000000. */
  lemma HexRunBound(s: string)
    requires |s| <= 6 && forall i | 0 <= i < |s| :: IsHexDigit(s[i])
    ensures HexValue(s) < 0x100_0000
  {
    HexValueBound(s);
    Pow16Monotone(|s|, 6);
    assert Pow16(6) == 0x100_0000;
  }

  /** The value read from the front: the first digit weighs sixteen to the
      power of the number of digits after it. */
  lemma {:induction false} HexValueFront(s: string)
    requires s != [] && forall i | 0 <= i < |s| :: IsHexDigit(s[i])
    ensures HexValue(s) == HexDigitValue(s[0]) * Pow16(|s| - 1) + HexValue(s[1..])
    decreases |s|
  {
    if |s| > 1 {
      var t := s[..|s| - 1];
      HexValueFront(t);
      assert t[1..] == s[1..][..|s| - 2];
      var d, p := HexDigitValue(s[0]), Pow16(|s| - 2);
      assert Pow16(|s| - 1) == 16 * p;
      ShiftDigit(d, p);
    } else {
      assert s[..0] == [] && s[1..] == [];
    }
  }

  lemma ShiftDigit(d: int, p: int)
    ensures (d * p) * 16 == d * (16 * p)
  {
  }

  /** Case does not matter to the value of a hexadecimal numeral. */
  lemma {:induction false} HexValueUpper(s: string)
    requires forall i | 0 <= i < |s| :: IsHexDigit(s[i])
    ensures forall i | 0 <= i < |s| ::
      IsHexDigit(UpperString(s)[i]) && IsUpperHexDigit(UpperString(s)[i])
    ensures HexValue(UpperString(s)) == HexValue(s)
    decreases |s|
  {
    if s != [] {
      var t := s[..|s| - 1];
      HexValueUpper(t);
      assert UpperString(s)[..|s| - 1] == UpperString(t);
    }
  }

  // ---------------------------------------------------------------------
  // Decimal numerals

  /** Every character is a decimal digit. */
  predicate AllDecDigits(s: string) {
    forall i | 0 <= i < |s| :: IsDecDigit(s[i])
  }

  /** The value of a string of decimal digits. */
  function DecValue(s: string): (v: nat)
    requires AllDecDigits(s)
    decreases |s|
  {
    if s == [] then 0 else DecValue(s[..|s| - 1]) * 10 + DecDigitValue(s[|s| - 1])
  }

  function DecDigitValue(c: char): (d: int)
    requires IsDecDigit(c)
    ensures 0 <= d < 10
  {
    c as int - '0' as int
  }

  /** The digit zero of the run of ten decimal digits (general category Nd)
      that holds `x`, or -1 when `x` is no decimal digit. The runs are
      those of the Basic Multilingual Plane as of Unicode 6.2; a Java
      `char` cannot hold the others. */
  function DecimalZero(x: int): (z: int)
    ensures z == -1 || (0 <= z <= x < z + 10)
  {
    if 0x0030 <= x < 0x003A then 0x0030
    else if 0x0660 <= x < 0x066A then 0x0660
    else if 0x06F0 <= x < 0x06FA then 0x06F0
    else if 0x07C0 <= x < 0x07CA then 0x07C0
    else if 0x0966 <= x < 0x0970 then 0x0966
    else if 0x09E6 <= x < 0x09F0 then 0x09E6
    else if 0x0A66 <= x < 0x0A70 then 0x0A66
    else if 0x0AE6 <= x < 0x0AF0 then 0x0AE6
    else if 0x0B66 <= x < 0x0B70 then 0x0B66
    else if 0x0BE6 <= x < 0x0BF0 then 0x0BE6
    else if 0x0C66 <= x < 0x0C70 then 0x0C66
    else if 0x0CE6 <= x < 0x0CF0 then 0x0CE6
    else if 0x0D66 <= x < 0x0D70 then 0x0D66
    else if 0x0E50 <= x < 0x0E5A then 0x0E50
    else if 0x0ED0 <= x < 0x0EDA then 0x0ED0
    else if 0x0F20 <= x < 0x0F2A then 0x0F20
    else if 0x1040 <= x < 0x104A then 0x1040
    else if 0x1090 <= x < 0x109A then 0x1090
    else if 0x17E0 <= x < 0x17EA then 0x17E0
    else if 0x1810 <= x < 0x181A then 0x1810
    else if 0x1946 <= x < 0x1950 then 0x1946
    else if 0x19D0 <= x < 0x19DA then 0x19D0
    else if 0x1A80 <= x < 0x1A8A then 0x1A80
    else if 0x1A90 <= x < 0x1A9A then 0x1A90
    else if 0x1B50 <= x < 0x1B5A then 0x1B50
    else if 0x1BB0 <= x < 0x1BBA then 0x1BB0
    else if 0x1C40 <= x < 0x1C4A then 0x1C40
    else if 0x1C50 <= x < 0x1C5A then 0x1C50
    else if 0xA620 <= x < 0xA62A then 0xA620
    else if 0xA8D0 <= x < 0xA8DA then 0xA8D0
    else if 0xA900 <= x < 0xA90A then 0xA900
    else if 0xA9D0 <= x < 0xA9DA then 0xA9D0
    else if 0xAA50 <= x < 0xAA5A then 0xAA50
    else if 0xABF0 <= x < 0xABFA then 0xABF0
    else if 0xFF10 <= x < 0xFF1A then 0xFF10
    else -1
  }

  /** `Character.digit(c, 10)`: the value of a decimal digit of any script,
      or -1. */
  function JavaDigit(c: char): (d: int)
    ensures -1 <= d < 10
    ensures IsDecDigit(c) ==> d == DecDigitValue(c)
  {
    var z := DecimalZero(c as int);
    if z < 0 then -1 else c as int - z
  }

  /** Every character is a digit to `Character.digit(c, 10)`. */
  predicate AllJavaDigits(s: string) {
    forall i | 0 <= i < |s| :: JavaDigit(s[i]) >= 0
  }

  /** The value `parseInt` accumulates from digits of any script. */
  function JavaDigitsValue(s: string): (v: nat)
    requires AllJavaDigits(s)
    decreases |s|
  {
    if s == [] then 0 else JavaDigitsValue(s[..|s| - 1]) * 10 + JavaDigit(s[|s| - 1])
  }

  /** On ASCII digits the two readings agree. */
  lemma {:induction false} JavaDigitsAscii(s: string)
    requires AllDecDigits(s)
    ensures AllJavaDigits(s) && JavaDigitsValue(s) == DecValue(s)
    decreases |s|
  {
    if s != [] {
      JavaDigitsAscii(s[..|s| - 1]);
    }
  }

  /** The shortest decimal numeral of a natural number. */
  function DecString(n: nat): (s: string)
    decreases n
  {
    if n < 10 then [('0' as int + n) as char] else DecString(n / 10) + [('0' as int + n % 10) as char]
  }

  /** `Integer.toString(x)` and `String.valueOf(x)`: a minus sign for negative
      values, then the shortest decimal numeral. */
  function IntToString(x: int): string {
    if x < 0 then "-" + DecString(-x) else DecString(x)
  }

  /** Ten to the power `k`. */
  function Pow10(k: nat): (p: nat)
    ensures p >= 1
  {
    if k == 0 then 1 else 10 * Pow10(k - 1)
  }

  /** The numeral reads back as the number and has at most `k` digits
      precisely when `n < 10^k`. */
  lemma {:induction false} DecStringRoundTrip(n: nat)
    ensures 1 <= |DecString(n)|
    ensures AllDecDigits(DecString(n))
    ensures DecValue(DecString(n)) == n
    ensures forall k: nat | k >= 1 :: |DecString(n)| <= k <==> n < Pow10(k)
    decreases n
  {
    if n >= 10 {
      DecStringRoundTrip(n / 10);
      var s := DecString(n / 10);
      assert DecString(n)[..|DecString(n)| - 1] == s;
      forall k: nat | k >= 1 ensures |DecString(n)| <= k <==> n < Pow10(k) {
        if k == 1 {
          assert Pow10(1) == 10;
        } else {
          assert |s| <= k - 1 <==> n / 10 < Pow10(k - 1);
        }
      }
    } else {
      forall k: nat | k >= 1 ensures n < Pow10(k) {
        assert Pow10(k) == 10 * Pow10(k - 1);
      }
    }
  }

  /** `Integer.parseInt(text)` (radix ten): an optional sign, then at least
      one digit of any script; `None` stands for the `NumberFormatException`
      thrown on bad syntax or on a value outside the `int` range. */
  function ParseInt(text: string): (r: Option<int>)
    ensures r.Some? ==> IsJavaInt(r.value)
  {
    var neg := |text| > 0 && text[0] == '-';
    var digits := if |text| > 0 && (text[0] == '-' || text[0] == '+') then text[1..] else text;
    if |digits| == 0 || !AllJavaDigits(digits) then None
    else
      var mag: int := JavaDigitsValue(digits);
      var v := if neg then -mag else mag;
      if IsJavaInt(v) then Some(v) else None
  }

  /** Every Java `int` printed by `Integer.toString` parses back. */
  lemma IntToStringRoundTrip(x: int)
    requires IsJavaInt(x)
    ensures ParseInt(IntToString(x)) == Some(x)
  {
    var n: nat := if x < 0 then -x else x;
    DecStringRoundTrip(n);
    var d := DecString(n);
    assert d[0] != '-' && d[0] != '+' by { assert IsDecDigit(d[0]); }
    if x < 0 {
      assert IntToString(x)[1..] == d;
    }
    JavaDigitsAscii(d);
  }

  // ---------------------------------------------------------------------
  // Character classes

  /** `\s` in `java.util.regex`: `[ \t\n\x0B\f\r]`. */
  predicate IsRegexSpace(c: char) {
    c == ' ' || c == '\t' || c == '\n' || c as int == 0x0B || c as int == 0x0C || c == '\r'
  }

  /** `\w` in `java.util.regex`: `[a-zA-Z_0-9]`. */
  predicate IsWordChar(c: char) {
    'a' <= c <= 'z' || 'A' <= c <= 'Z' || c == '_' || '0' <= c <= '9'
  }

  /** The line terminators that `.` does not match (without `DOTALL`):
      U+000A, U+000D, U+0085, U+2028 and U+2029. */
  predicate IsLineTerminator(c: char) {
    c == '\n' || c == '\r' || c as int == 0x85 || c as int == 0x2028 || c as int == 0x2029
  }

  /** `Character.isWhitespace`: the Unicode space, line and paragraph
      separators other than the no-break spaces (U+0020, U+1680, U+2000 to
      U+2006, U+2008 to U+200A, U+2028, U+2029, U+205F, U+3000), plus the
      controls U+0009 to U+000D and U+001C to U+001F. */
  predicate IsJavaWhitespace(c: char) {
    var x := c as int;
    (0x09 <= x <= 0x0D) || (0x1C <= x <= 0x20) || x == 0x1680 ||
    (0x2000 <= x <= 0x2006) || (0x2008 <= x <= 0x200A) ||
    x == 0x2028 || x == 0x2029 || x == 0x205F || x == 0x3000
  }

  predicate IsAsciiLetter(c: char) {
    'a' <= c <= 'z' || 'A' <= c <= 'Z'
  }

  /** Case mapping restricted to ASCII letters; every other character is kept. */
  function ToUpper(c: char): (u: char)
    ensures IsAsciiLetter(c) <==> IsAsciiLetter(u)
    ensures !IsAsciiLetter(c) ==> u == c
    ensures 'A' <= u <= 'Z' || !IsAsciiLetter(u)
  {
    if 'a' <= c <= 'z' then (c as int - 32) as char else c
  }

  function ToLower(c: char): (l: char)
    ensures IsAsciiLetter(c) <==> IsAsciiLetter(l)
    ensures !IsAsciiLetter(c) ==> l == c
    ensures 'a' <= l <= 'z' || !IsAsciiLetter(l)
  {
    if 'A' <= c <= 'Z' then (c as int + 32) as char else c
  }

  function UpperString(s: string): (r: string)
    ensures |r| == |s| && forall i | 0 <= i < |s| :: r[i] == ToUpper(s[i])
  {
    seq(|s|, i requires 0 <= i < |s| => ToUpper(s[i]))
  }

  function LowerString(s: string): (r: string)
    ensures |r| == |s| && forall i | 0 <= i < |s| :: r[i] == ToLower(s[i])
  {
    seq(|s|, i requires 0 <= i < |s| => ToLower(s[i]))
  }

  /** Mapping a character to one case and then to either case is the same
      as mapping it to that case directly; only letters have case. */
  lemma CaseAbsorbs(c: char)
    ensures ToUpper(ToUpper(c)) == ToUpper(c) && ToLower(ToUpper(c)) == ToLower(c)
    ensures ToUpper(ToLower(c)) == ToUpper(c) && ToLower(ToLower(c)) == ToLower(c)
    ensures ToUpper(c) == c || IsAsciiLetter(c)
    ensures ToLower(c) == c || IsAsciiLetter(c)
  {
  }

  /** `String.trim()`: drops leading and trailing characters up to U+0020. */
  function Trim(s: string): (r: string)
    ensures |r| <= |s|
    ensures r != [] ==> r[0] > ' ' && r[|r| - 1] > ' '
    decreases |s|
  {
    if s == [] then []
    else if s[0] <= ' ' then Trim(s[1..])
    else if s[|s| - 1] <= ' ' then Trim(s[..|s| - 1])
    else s
  }

  /** `r` is `s[i..j]`, and every character of `s` before `i` and from `j`
      on is at most U+0020. */
  predicate TrimmedSlice(s: string, r: string, i: int, j: int) {
    0 <= i <= j <= |s| && r == s[i..j] &&
    (forall k | 0 <= k < i :: s[k] <= ' ') && (forall k | j <= k < |s| :: s[k] <= ' ')
  }

  /** What `trim` returns: the slice of `s` left once the leading and the
      trailing characters up to U+0020 are dropped, empty only when every
      character of `s` is one of them. */
  lemma {:induction false} TrimSpec(s: string)
    ensures exists i, j :: TrimmedSlice(s, Trim(s), i, j)
    ensures (exists k | 0 <= k < |s| :: s[k] > ' ') ==> Trim(s) != []
    decreases |s|
  {
    if s == [] {
      assert TrimmedSlice(s, Trim(s), 0, 0);
    } else if s[0] <= ' ' {
      var t := s[1..];
      TrimSpec(t);
      var i, j :| TrimmedSlice(t, Trim(t), i, j);
      TrimDropFirst(s, Trim(t), i, j);
      assert TrimmedSlice(s, Trim(s), i + 1, j + 1);
      if exists k | 0 <= k < |s| :: s[k] > ' ' {
        var k :| 0 <= k < |s| && s[k] > ' ';
        assert t[k - 1] > ' ';
      }
    } else if s[|s| - 1] <= ' ' {
      var t := s[..|s| - 1];
      TrimSpec(t);
      var i, j :| TrimmedSlice(t, Trim(t), i, j);
      TrimDropLast(s, Trim(t), i, j);
      assert TrimmedSlice(s, Trim(s), i, j);
      assert t[0] > ' ';
    } else {
      assert TrimmedSlice(s, Trim(s), 0, |s|);
    }
  }

  lemma TrimDropFirst(s: string, r: string, i: int, j: int)
    requires s != [] && s[0] <= ' ' && TrimmedSlice(s[1..], r, i, j)
    ensures TrimmedSlice(s, r, i + 1, j + 1)
  {
    var t := s[1..];
    assert r == s[i + 1..j + 1];
    forall k | 0 <= k < i + 1 ensures s[k] <= ' ' {
      if k > 0 { assert s[k] == t[k - 1]; }
    }
    forall k | j + 1 <= k < |s| ensures s[k] <= ' ' {
      assert s[k] == t[k - 1];
    }
  }

  lemma TrimDropLast(s: string, r: string, i: int, j: int)
    requires s != [] && s[|s| - 1] <= ' ' && TrimmedSlice(s[..|s| - 1], r, i, j)
    ensures TrimmedSlice(s, r, i, j)
  {
    var t := s[..|s| - 1];
    assert r == s[i..j];
    forall k | j <= k < |s| ensures s[k] <= ' ' {
      if k < |s| - 1 { assert s[k] == t[k]; }
    }
  }

  // ---------------------------------------------------------------------
  // Character runs (the greedy quantifiers of the regular expressions)

  predicate All(s: string, p: char -> bool) {
    forall i | 0 <= i < |s| :: p(s[i])
  }

  /** `s` split after its longest prefix of characters satisfying `p`. */
  function Span(s: string, p: char -> bool): (r: (string, string))
    ensures r.0 + r.1 == s && All(r.0, p) && (r.1 == [] || !p(r.1[0]))
    decreases |s|
  {
    if s != [] && p(s[0]) then
      var (a, b) := Span(s[1..], p);
      assert [s[0]] + (a + b) == s;
      ([s[0]] + a, b)
    else ([], s)
  }

  /** `s` split before its longest suffix of characters satisfying `p`. */
  function BackSpan(s: string, p: char -> bool): (r: (string, string))
    ensures r.0 + r.1 == s && All(r.1, p) && (r.0 == [] || !p(r.0[|r.0| - 1]))
    decreases |s|
  {
    if s != [] && p(s[|s| - 1]) then
      var (a, b) := BackSpan(s[..|s| - 1], p);
      assert (a + b) + [s[|s| - 1]] == s;
      (a, b + [s[|s| - 1]])
    else (s, [])
  }

  /** A span is determined by where it stops. */
  lemma {:induction false} SpanOf(a: string, b: string, p: char -> bool)
    requires All(a, p) && (b == [] || !p(b[0]))
    ensures Span(a + b, p) == (a, b)
    decreases |a|
  {
    if a != [] {
      assert (a + b)[0] == a[0] && (a + b)[1..] == a[1..] + b;
      SpanOf(a[1..], b, p);
      assert [a[0]] + a[1..] == a;
    } else {
      assert a + b == b;
    }
  }

  lemma {:induction false} BackSpanOf(a: string, b: string, p: char -> bool)
    requires All(b, p) && (a == [] || !p(a[|a| - 1]))
    ensures BackSpan(a + b, p) == (a, b)
    decreases |b|
  {
    if b != [] {
      var s := a + b;
      assert s[|s| - 1] == b[|b| - 1] && s[..|s| - 1] == a + b[..|b| - 1];
      BackSpanOf(a, b[..|b| - 1], p);
      assert b[..|b| - 1] + [b[|b| - 1]] == b;
    } else {
      assert a + b == a;
    }
  }
}
