/** The two ways the character map names a character number: the "U+nnnn"
    notation of Appendix A of the Unicode Standard, and the Windows
    "Alt+nnnn" keyboard notation. */
module Notation {
  import opened JavaLang

  /** `"0000".substring(s.length()) + s` when `s` is shorter than four
      characters: left-pads with zeros to at least four. */
  function PadFour(s: string): (r: string)
    ensures |r| == if |s| < 4 then 4 else |s|
    ensures r[|r| - |s|..] == s
    ensures forall i | 0 <= i < |r| - |s| :: r[i] == '0'
  {
    if |s| < 4 then Zeros(4 - |s|) + s else s
  }

  /** `unicodeNotation(value)` (the same method appears in both the viewer
      and the caption generator). */
  function UnicodeNotation(value: int): string
    requires IsJavaInt(value)
  {
    "U+" + PadFour(JavaHexString(value))
  }

  /** The notation of a non-negative value is "U+" followed by at least four
      upper-case hexadecimal digits, exactly four below 0x10000, more only
      when needed, with no extra leading zero; the digits read back as the
      value. */
  lemma UnicodeNotationShape(value: int)
    requires 0 <= value <= MAX_INT
    ensures var s := UnicodeNotation(value);
      |s| >= 6 && s[..2] == "U+" &&
      (forall i | 2 <= i < |s| :: IsUpperHexDigit(s[i])) &&
      (|s| == 6 <==> value < 0x10000) &&
      (|s| > 6 ==> s[2] != '0') &&
      HexValue(s[2..]) == value
  {
    assert JavaHexString(value) == HexString(value);
    PaddedHexShape(value);
    UPlusShape(PadFour(HexString(value)));
  }

  lemma UPlusShape(p: string)
    ensures var s := "U+" + p;
      |s| == |p| + 2 && s[..2] == "U+" && s[2..] == p &&
      (forall i | 2 <= i < |s| :: s[i] == p[i - 2])
  {
  }

  /** The padded numeral alone: at least four upper-case digits, exactly
      four below 0x10000, no extra leading zero, reading back as the value. */
  lemma PaddedHexShape(value: nat)
    ensures var p := PadFour(HexString(value));
      |p| >= 4 && (forall i | 0 <= i < |p| :: IsUpperHexDigit(p[i])) &&
      (|p| == 4 <==> value < 0x10000) && (|p| > 4 ==> p[0] != '0') &&
      HexValue(p) == value
  {
    var h := HexString(value);
    HexStringShape(value);
    HexStringRoundTrip(value);
    assert Pow16(4) == 0x10000;
    var p := PadFour(h);
    if |h| < 4 {
      HexValueLeadingZeros(4 - |h|, h);
      forall i | 0 <= i < |p| ensures IsUpperHexDigit(p[i]) {
        if i >= 4 - |h| {
          assert p[i] == h[i - (4 - |h|)];
        }
      }
    }
  }

  /** Distinct non-negative values have distinct notations. */
  lemma UnicodeNotationInjective(v: int, w: int)
    requires 0 <= v <= MAX_INT && 0 <= w <= MAX_INT
    requires UnicodeNotation(v) == UnicodeNotation(w)
    ensures v == w
  {
    UnicodeNotationShape(v);
    UnicodeNotationShape(w);
  }

  /** `winaltNotation(value)`. */
  function WinaltNotation(value: int): string {
    "Alt+" + PadFour(IntToString(value))
  }

  /** `a` is the Alt+ code of `v`: "Alt+" and four decimal digits whose
      value is `v`. */
  predicate IsAltCode(a: string, v: int) {
    |a| == 8 && a[..4] == "Alt+" && AllDecDigits(a[4..]) && DecValue(a[4..]) == v
  }

  /** For the codes the notation is meant for (up to 9999) the result is
      "Alt+" and exactly four decimal digits whose value is the code. */
  lemma WinaltNotationShape(value: int)
    requires 0 <= value < 10000
    ensures IsAltCode(WinaltNotation(value), value)
  {
    var d := DecString(value);
    DecStringRoundTrip(value);
    assert Pow10(4) == 10000;
    var s := WinaltNotation(value);
    assert s[4..] == Zeros(4 - |d|) + d;
    DecValueLeadingZeros(4 - |d|, d);
  }

  /** Leading zeros do not change the value of a decimal numeral. */
  lemma {:induction false} DecValueLeadingZeros(z: nat, s: string)
    requires AllDecDigits(s)
    ensures AllDecDigits(Zeros(z) + s)
    ensures DecValue(Zeros(z) + s) == DecValue(s)
    decreases |s|
  {
    if s == [] {
      DecZerosValue(z);
      assert Zeros(z) + s == Zeros(z);
    } else {
      var t := Zeros(z) + s;
      assert t[..|t| - 1] == Zeros(z) + s[..|s| - 1];
      DecValueLeadingZeros(z, s[..|s| - 1]);
    }
  }

  lemma {:induction false} DecZerosValue(n: nat)
    ensures DecValue(Zeros(n)) == 0
    decreases n
  {
    if n > 0 {
      assert Zeros(n)[..n - 1] == Zeros(n - 1);
      DecZerosValue(n - 1);
    }
  }
}
