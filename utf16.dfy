/** UTF-16 as Java strings hold it: a code point becomes one code unit, or a
    surrogate pair when it lies above the Basic Multilingual Plane
    (section 2.1 of RFC 2781). */
module Utf16 {
  import opened JavaLang

  /** One Java `char`. */
  type CodeUnit = x: int | 0 <= x <= 0xFFFF

  const MAX_CODE_POINT: int := 0x10FFFF

  predicate IsHighSurrogate(u: int) { 0xD800 <= u <= 0xDBFF }
  predicate IsLowSurrogate(u: int) { 0xDC00 <= u <= 0xDFFF }

  /** `CharMap4.charToString`, i.e. `String.valueOf(Character.toChars(v))`;
      `toChars` refuses values outside `0..0x10FFFF`. */
  function CharToString(v: int): (r: seq<CodeUnit>)
    requires 0 <= v <= MAX_CODE_POINT
    ensures |r| == 1 <==> v < 0x10000
    ensures |r| == 1 || |r| == 2
    ensures |r| == 2 ==> IsHighSurrogate(r[0]) && IsLowSurrogate(r[1])
  {
    if v < 0x10000 then [v]
    else
      var w := v - 0x10000;
      [0xD800 + w / 0x400, 0xDC00 + w % 0x400]
  }

  /** Reads one code point back from a unit sequence: a lone unit, or a high
      surrogate followed by a low surrogate. */
  function DecodeOne(units: seq<CodeUnit>): (r: Option<int>)
    ensures r.Some? ==> 0 <= r.value <= MAX_CODE_POINT
  {
    if |units| == 1 then Some(units[0])
    else if |units| == 2 && IsHighSurrogate(units[0]) && IsLowSurrogate(units[1]) then
      var hi: int := units[0];
      var lo: int := units[1];
      Some(0x10000 + (hi - 0xD800) * 0x400 + (lo - 0xDC00))
    else None
  }

  /** The encoding loses nothing: decoding gives back the code point. */
  lemma CharToStringRoundTrip(v: int)
    requires 0 <= v <= MAX_CODE_POINT
    ensures DecodeOne(CharToString(v)) == Some(v)
  {
    if v >= 0x10000 {
      var w := v - 0x10000;
      assert w == (w / 0x400) * 0x400 + w % 0x400;
    }
  }

  /** Different code points give different unit sequences. */
  lemma CharToStringInjective(v: int, w: int)
    requires 0 <= v <= MAX_CODE_POINT && 0 <= w <= MAX_CODE_POINT
    requires CharToString(v) == CharToString(w)
    ensures v == w
  {
    CharToStringRoundTrip(v);
    CharToStringRoundTrip(w);
  }

  /** The UTF-16 form of a whole string, as Java holds it. */
  function Encode(s: string): seq<CodeUnit>
    decreases |s|
  {
    if s == [] then [] else CharToString(s[0] as int) + Encode(s[1..])
  }

  /** Reads a whole unit sequence back as text: surrogate pairs combine,
      other units stand for themselves, and a lone surrogate is refused. */
  function Decode(units: seq<CodeUnit>): Option<string>
    decreases |units|
  {
    if units == [] then Some([])
    else if |units| >= 2 && IsHighSurrogate(units[0]) && IsLowSurrogate(units[1]) then
      var hi: int := units[0];
      var lo: int := units[1];
      var c := 0x10000 + (hi - 0xD800) * 0x400 + (lo - 0xDC00);
      match Decode(units[2..])
      case Some(rest) => Some([c as char] + rest)
      case None => None
    else if IsHighSurrogate(units[0]) || IsLowSurrogate(units[0]) then None
    else
      match Decode(units[1..])
      case Some(rest) => Some([units[0] as char] + rest)
      case None => None
  }

  /** Encoding a string loses nothing. */
  lemma {:induction false} EncodeRoundTrip(s: string)
    ensures Decode(Encode(s)) == Some(s)
    decreases |s|
  {
    if s != [] {
      var v := s[0] as int;
      var head := CharToString(v);
      EncodeRoundTrip(s[1..]);
      CharToStringRoundTrip(v);
      assert Encode(s) == head + Encode(s[1..]);
      if v >= 0x10000 {
        var e := Encode(s);
        assert e[2..] == Encode(s[1..]);
        assert e[0] == head[0] && e[1] == head[1];
        var hi: int := e[0];
        var lo: int := e[1];
        assert 0x10000 + (hi - 0xD800) * 0x400 + (lo - 0xDC00) == v;
        assert (v as char) == s[0];
        assert [s[0]] + s[1..] == s;
      } else {
        var e := Encode(s);
        assert e[1..] == Encode(s[1..]);
        assert e[0] == v;
        assert !IsHighSurrogate(v) && !IsLowSurrogate(v);
        assert (e[0] as char) == s[0];
        assert [s[0]] + s[1..] == s;
      }
    }
  }

  /** A string of ASCII characters encodes unit for character. */
  lemma {:induction false} EncodeAscii(s: string)
    requires forall i | 0 <= i < |s| :: s[i] as int < 0x80
    ensures |Encode(s)| == |s| && forall i | 0 <= i < |s| :: Encode(s)[i] == s[i] as int
    decreases |s|
  {
    if s != [] {
      EncodeAscii(s[1..]);
    }
  }
}
