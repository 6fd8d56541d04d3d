/** The text clean-ups of the caption generator: `checkPlainText`, which
    reduces the accented Latin letters of the Mandarin and Vietnamese
    readings to plain US-ASCII, and `titleCase`, which rewrites the
    upper-case standard character names in title case. */
module PlainText {
  import opened JavaLang
  import opened Utf16

  /** The accented letters `checkPlainText` knows, each with the base
      letter it is reduced to, in the order of its chain of tests. */
  function AccentBase(x: int): Option<char> {
    match x
      case 0x00E0 => Some('a')
      case 0x00E1 => Some('a')
      case 0x00E2 => Some('a')
      case 0x00E3 => Some('a')
      case 0x00E8 => Some('e')
      case 0x00E9 => Some('e')
      case 0x00EA => Some('e')
      case 0x00EC => Some('i')
      case 0x00ED => Some('i')
      case 0x00F2 => Some('o')
      case 0x00F3 => Some('o')
      case 0x00F4 => Some('o')
      case 0x00F5 => Some('o')
      case 0x00F9 => Some('u')
      case 0x00FA => Some('u')
      case 0x00FC => Some('u')
      case 0x00FD => Some('y')
      case 0x0101 => Some('a')
      case 0x0103 => Some('a')
      case 0x0111 => Some('d')
      case 0x0113 => Some('e')
      case 0x011B => Some('e')
      case 0x0129 => Some('i')
      case 0x012B => Some('i')
      case 0x0144 => Some('n')
      case 0x0148 => Some('n')
      case 0x014D => Some('o')
      case 0x0169 => Some('u')
      case 0x016B => Some('u')
      case 0x01A1 => Some('o')
      case 0x01B0 => Some('u')
      case 0x01CE => Some('a')
      case 0x01D0 => Some('i')
      case 0x01D2 => Some('o')
      case 0x01D4 => Some('u')
      case 0x01D8 => Some('u')
      case 0x01DA => Some('u')
      case 0x01DC => Some('u')
      case 0x01F9 => Some('n')
      case 0x1E3F => Some('m')
      case 0x1EA1 => Some('a')
      case 0x1EA3 => Some('a')
      case 0x1EA5 => Some('a')
      case 0x1EA7 => Some('a')
      case 0x1EA9 => Some('a')
      case 0x1EAB => Some('a')
      case 0x1EAD => Some('a')
      case 0x1EAF => Some('a')
      case 0x1EB1 => Some('a')
      case 0x1EB3 => Some('a')
      case 0x1EB5 => Some('a')
      case 0x1EB7 => Some('a')
      case 0x1EB9 => Some('e')
      case 0x1EBB => Some('e')
      case 0x1EBD => Some('e')
      case 0x1EBF => Some('e')
      case 0x1EC1 => Some('e')
      case 0x1EC3 => Some('e')
      case 0x1EC5 => Some('e')
      case 0x1EC7 => Some('e')
      case 0x1EC9 => Some('i')
      case 0x1ECB => Some('i')
      case 0x1ECD => Some('o')
      case 0x1ECF => Some('o')
      case 0x1ED1 => Some('o')
      case 0x1ED3 => Some('o')
      case 0x1ED5 => Some('o')
      case 0x1ED7 => Some('o')
      case 0x1ED9 => Some('o')
      case 0x1EDB => Some('o')
      case 0x1EDD => Some('o')
      case 0x1EDF => Some('o')
      case 0x1EE1 => Some('o')
      case 0x1EE3 => Some('o')
      case 0x1EE5 => Some('u')
      case 0x1EE7 => Some('u')
      case 0x1EE9 => Some('u')
      case 0x1EEB => Some('u')
      case 0x1EED => Some('u')
      case 0x1EEF => Some('u')
      case 0x1EF1 => Some('u')
      case 0x1EF3 => Some('y')
      case 0x1EF5 => Some('y')
      case 0x1EF7 => Some('y')
      case 0x1EF9 => Some('y')
      case _ => None
  }

  predicate IsPrintableAscii(c: char) {
    ' ' <= c <= '~'
  }

  /** Every letter of the table is beyond US-ASCII and reduces to a small
      Latin letter. */
  lemma AccentBaseLetters(x: int)
    requires AccentBase(x).Some?
    ensures 0xE0 <= x < 0xD800 && 'a' <= AccentBase(x).value <= 'z'
  {
  }

  /** What `checkPlainText` appends for one `char` of the value, a UTF-16
      code unit: printable US-ASCII as it is, a known accented letter as its
      base letter, anything else as `?`. */
  function PlainChar(u: CodeUnit): char {
    if 0x20 <= u <= 0x7E then u as char
    else if AccentBase(u).Some? then AccentBase(u).value
    else '?'
  }

  /** The text `checkPlainText` builds from the code units of a value. */
  function PlainUnits(units: seq<CodeUnit>): (r: string)
    ensures |r| == |units|
  {
    seq(|units|, i requires 0 <= i < |units| => PlainChar(units[i]))
  }

  /** The text `checkPlainText` returns for a Java string: one character
      for each of its UTF-16 code units. */
  function PlainTextOf(value: string): (r: string)
    ensures |r| == |Encode(value)|
  {
    PlainUnits(Encode(value))
  }

  /** The loop of `checkPlainText`, over `value.length()` code units (the
      complaint it prints about an unknown character is not modelled). */
  method CheckPlainText(value: string) returns (r: string)
    ensures r == PlainTextOf(value)
  {
    var units := Encode(value);
    var length := |units|;
    r := [];
    var i := 0;
    while i < length
      invariant 0 <= i <= length
      invariant r == PlainUnits(units[..i])
    {
      assert units[..i + 1][..i] == units[..i];
      r := r + [PlainChar(units[i])];
      i := i + 1;
    }
    assert units[..length] == units;
  }

  /** The text has one character per code unit and is printable US-ASCII:
      printable units stay, known accented letters become their small base
      letter, and every other unit, a surrogate included, becomes `?`. */
  lemma PlainTextSpec(units: seq<CodeUnit>)
    ensures var r := PlainUnits(units);
      |r| == |units| &&
      (forall i | 0 <= i < |r| :: IsPrintableAscii(r[i])) &&
      (forall i | 0 <= i < |r| :: 0x20 <= units[i] <= 0x7E ==> r[i] as int == units[i]) &&
      (forall i | 0 <= i < |r| :: AccentBase(units[i]).Some? ==> r[i] == AccentBase(units[i]).value) &&
      (forall i | 0 <= i < |r| :: !(0x20 <= units[i] <= 0x7E) && AccentBase(units[i]).None? ==> r[i] == '?')
  {
    forall i | 0 <= i < |units| ensures IsPrintableAscii(PlainChar(units[i])) {
      if AccentBase(units[i]).Some? {
        AccentBaseLetters(units[i]);
      }
    }
  }

  /** A character beyond the Basic Multilingual Plane is two surrogate
      units to `checkPlainText`, and so becomes `??`. */
  lemma PlainTextSupplementary(c: char)
    requires c as int >= 0x10000
    ensures PlainTextOf([c]) == "??"
  {
    var s := [c];
    var units := Encode(s);
    assert s[0] == c && s[1..] == [];
    assert units == CharToString(c as int) + Encode([]);
    assert IsHighSurrogate(units[0]) && IsLowSurrogate(units[1]);
  }

  /** Printable US-ASCII text is one unit per character and comes back
      unchanged. */
  lemma PlainTextAscii(s: string)
    requires forall i | 0 <= i < |s| :: IsPrintableAscii(s[i])
    ensures PlainTextOf(s) == s
  {
    EncodeAscii(s);
  }

  /** Plain text is a fixed point: cleaning it again changes nothing. */
  lemma PlainTextIdempotent(value: string)
    ensures PlainTextOf(PlainTextOf(value)) == PlainTextOf(value)
  {
    PlainTextSpec(Encode(value));
    PlainTextAscii(PlainTextOf(value));
  }

  // ---------------------------------------------------------------------
  // Title case

  /** A space or a hyphen ends a word. */
  predicate IsDelimiter(c: char) {
    c == ' ' || c == '-'
  }

  /** The title-case rule stated by position: delimiters stay, the first
      character and every character after a delimiter go to upper case,
      all others to lower case. Case mapping is that of US-ASCII. */
  function Titled(s: string): (r: string)
    ensures |r| == |s|
  {
    seq(|s|, i requires 0 <= i < |s| =>
      if IsDelimiter(s[i]) then s[i]
      else if i == 0 || IsDelimiter(s[i - 1]) then ToUpper(s[i])
      else ToLower(s[i]))
  }

  /** The loop of `titleCase`, which carries a flag for "the next character
      starts a word" instead of looking back. */
  method TitleCase(input: string) returns (r: string)
    ensures r == Titled(input)
  {
    r := [];
    var upper := true;
    var i := 0;
    while i < |input|
      invariant 0 <= i <= |input| && |r| == i
      invariant forall k | 0 <= k < i :: r[k] == Titled(input)[k]
      invariant upper <==> i == 0 || IsDelimiter(input[i - 1])
    {
      var ch := input[i];
      if IsDelimiter(ch) {
        r := r + [ch];
        upper := true;
      } else if upper {
        r := r + [ToUpper(ch)];
        upper := false;
      } else {
        r := r + [ToLower(ch)];
      }
      i := i + 1;
    }
  }

  /** The names are not assumed to be upper case: the result does not
      depend on the case of the input. */
  lemma TitledIgnoresCase(s: string)
    ensures Titled(UpperString(s)) == Titled(s) && Titled(LowerString(s)) == Titled(s)
  {
    TitledSameLetters(s, UpperString(s));
    TitledSameLetters(s, LowerString(s));
  }

  /** Two strings that differ only in the case of their letters have the
      same title case. */
  lemma TitledSameLetters(s: string, t: string)
    requires |t| == |s|
    requires forall i | 0 <= i < |s| :: t[i] == ToUpper(s[i]) || t[i] == ToLower(s[i])
    ensures Titled(t) == Titled(s)
  {
    forall i | 0 <= i < |s| ensures Titled(t)[i] == Titled(s)[i] {
      CaseAbsorbs(s[i]);
      if i > 0 {
        CaseAbsorbs(s[i - 1]);
      }
    }
  }

  /** Title case is a fixed point. */
  lemma TitledIdempotent(s: string)
    ensures Titled(Titled(s)) == Titled(s)
  {
    var t := Titled(s);
    forall i | 0 <= i < |s| ensures Titled(t)[i] == t[i] {
      assert IsDelimiter(t[i]) <==> IsDelimiter(s[i]);
      if i > 0 {
        assert IsDelimiter(t[i - 1]) <==> IsDelimiter(s[i - 1]);
      }
    }
  }
}
