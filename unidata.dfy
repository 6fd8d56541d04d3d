/** The line rule of `uniBegin`: a line of UnicodeData.txt gives a caption
    when it starts with `^\s*([0-9A-Fa-f]{1,6})\s*;\s*(\S[^;]*\S)\s*;`,
    the character number being the hexadecimal digits and the caption the
    second group in title case. The pattern is found at the start of the
    line; whatever follows the second `;` is not looked at. */
module UniData {
  import opened JavaLang
  import PlainText

  predicate NotSemicolon(c: char) {
    c != ';'
  }

  /** A text `(\S[^;]*\S)` captures: two characters or more, neither end a
      space, and no `;` strictly inside. */
  predicate IsNameField(name: string) {
    |name| >= 2 && !IsRegexSpace(name[0]) && !IsRegexSpace(name[|name| - 1]) &&
    forall i | 1 <= i < |name| - 1 :: name[i] != ';'
  }

  /** `s` starts with `\s*;`. */
  predicate SemiAhead(s: string) {
    var t := Span(s, IsRegexSpace).1;
    t != [] && t[0] == ';'
  }

  /** The pieces of `(\S[^;]*\S)\s*;` and what follows: the captured
      name, the spaces before the `;`, and the rest of the line. */
  datatype NameFields = NameFields(name: string, trail: string, rest: string)

  function NameText(n: NameFields): string {
    n.name + (n.trail + (";" + n.rest))
  }

  /** The pieces as the matcher splits them. The group `[^;]*` takes all it
      can, so the last `\S` of the name is a `;` exactly when the `;` that
      ends the name part is followed by `\s*;`: the name then runs up to
      and including that first `;`. */
  predicate WellFormedName(n: NameFields) {
    IsNameField(n.name) && All(n.trail, IsRegexSpace) &&
    (n.name[|n.name| - 1] == ';' || !SemiAhead(n.rest))
  }

  /** `(\S[^;]*\S)\s*;` matched at the start of `s`. */
  function MatchName(s: string): (r: Option<NameFields>)
    ensures r.Some? ==> WellFormedName(r.value) && NameText(r.value) == s
  {
    if s == [] || IsRegexSpace(s[0]) then None
    else
      var (mid, s5) := Span(s[1..], NotSemicolon);
      if s5 == [] then None
      else
        var (spaces, s6) := Span(s5[1..], IsRegexSpace);
        if s6 != [] && s6[0] == ';' then
          var n := NameFields([s[0]] + mid + [';'], spaces, s6[1..]);
          NameToSemicolon(s, n, mid, s5, s6);
          Some(n)
        else
          var (body, tail) := BackSpan(mid, IsRegexSpace);
          if body == [] then None
          else
            var n := NameFields([s[0]] + body, tail, s5[1..]);
            assert !SemiAhead(n.rest);
            NameBeforeSpaces(s, n, mid, s5);
            Some(n)
  }

  /** The pieces of a match whose name ends at a `;`. */
  lemma NameToSemicolon(s: string, n: NameFields, mid: string, s5: string, s6: string)
    requires s != [] && !IsRegexSpace(s[0]) && s[1..] == mid + s5 && All(mid, NotSemicolon)
    requires s5 != [] && s5[0] == ';' && s5[1..] == n.trail + s6 && All(n.trail, IsRegexSpace)
    requires s6 != [] && s6[0] == ';' && n.rest == s6[1..]
    requires n.name == [s[0]] + mid + [';']
    ensures WellFormedName(n) && NameText(n) == s
  {
    assert forall i | 1 <= i < |n.name| - 1 :: n.name[i] == mid[i - 1];
    assert s5 == ";" + (n.trail + (";" + n.rest));
    assert s == [s[0]] + s[1..];
  }

  /** The pieces of a match whose name ends before the spaces that lead
      to the `;`. */
  lemma NameBeforeSpaces(s: string, n: NameFields, mid: string, s5: string)
    requires s != [] && !IsRegexSpace(s[0]) && s[1..] == mid + s5 && All(mid, NotSemicolon)
    requires s5 != [] && s5[0] == ';' && n.rest == s5[1..]
    requires !SemiAhead(n.rest)
    requires |n.name| >= 2 && n.name[0] == s[0] && n.name[1..] + n.trail == mid
    requires !IsRegexSpace(n.name[|n.name| - 1]) && All(n.trail, IsRegexSpace)
    ensures WellFormedName(n) && NameText(n) == s
  {
    assert forall i | 1 <= i < |n.name| :: n.name[i] == mid[i - 1];
    assert n.name == [s[0]] + n.name[1..];
    assert s == [s[0]] + s[1..];
    assert s5 == ";" + n.rest;
  }

  /** Every well-formed name part is matched, and split as it was built. */
  lemma MatchNameComplete(n: NameFields)
    requires WellFormedName(n)
    ensures MatchName(NameText(n)) == Some(n)
  {
    var s6 := ";" + n.rest;
    var s5 := n.trail + s6;
    var s := n.name + s5;
    var k := |n.name|;
    assert s[0] == n.name[0];
    if n.name[k - 1] == ';' {
      NameToSemicolonComplete(n);
    } else {
      var mid := n.name[1..] + n.trail;
      assert s[1..] == mid + s6;
      forall i | 0 <= i < |mid| ensures NotSemicolon(mid[i]) {
        if i < k - 1 {
          assert mid[i] == n.name[i + 1];
        } else {
          assert mid[i] == n.trail[i - (k - 1)];
        }
      }
      SpanOf(mid, s6, NotSemicolon);
      assert s6[1..] == n.rest;
      BackSpanOf(n.name[1..], n.trail, IsRegexSpace);
      assert n.name == [s[0]] + n.name[1..];
    }
  }

  lemma NameToSemicolonComplete(n: NameFields)
    requires WellFormedName(n) && n.name[|n.name| - 1] == ';'
    ensures MatchName(NameText(n)) == Some(n)
  {
    var s6 := ";" + n.rest;
    var s5 := n.trail + s6;
    var s := n.name + s5;
    var k := |n.name|;
    var mid := n.name[1..k - 1];
    Bracketed(n.name, s5);
    SpanOf(mid, ";" + s5, NotSemicolon);
    assert (";" + s5)[1..] == s5;
    SpanOf(n.trail, s6, IsRegexSpace);
  }

  /** A text of two characters or more is its first character, its
      middle and its last character, and so is what it starts. */
  lemma Bracketed(x: string, y: string)
    requires |x| >= 2
    ensures x == [x[0]] + x[1..|x| - 1] + [x[|x| - 1]]
    ensures (x + y)[0] == x[0] && (x + y)[1..] == x[1..|x| - 1] + ([x[|x| - 1]] + y)
  {
    assert x == [x[0]] + x[1..];
    assert x[1..] == x[1..|x| - 1] + [x[|x| - 1]];
  }

  /** The pieces of a line the pattern matches: the spaces before the
      digits, the digits, the spaces around the first `;`, and the name
      part. */
  datatype UniFields = UniFields(lead: string, hex: string, beforeSemi: string,
                                 afterSemi: string, field: NameFields)

  function FieldsText(f: UniFields): string {
    f.lead + (f.hex + (f.beforeSemi + (";" + (f.afterSemi + NameText(f.field)))))
  }

  predicate WellFormedFields(f: UniFields) {
    All(f.lead, IsRegexSpace) &&
    1 <= |f.hex| <= 6 && All(f.hex, IsHexDigit) &&
    All(f.beforeSemi, IsRegexSpace) && All(f.afterSemi, IsRegexSpace) &&
    WellFormedName(f.field)
  }

  /** The pattern of `uniBegin`, matched from the start of `line`. The
      spaces and digits are as many as there are; more than six digits
      fail the match, since the seventh is neither a space nor `;`. */
  function MatchUniLine(line: string): (r: Option<UniFields>)
    ensures r.Some? ==> WellFormedFields(r.value) && FieldsText(r.value) == line
  {
    var (lead, s1) := Span(line, IsRegexSpace);
    var (hex, s2) := Span(s1, IsHexDigit);
    if hex == [] || |hex| > 6 then None
    else
      var (before, s3) := Span(s2, IsRegexSpace);
      if s3 == [] || s3[0] != ';' then None
      else
        var (after, s4) := Span(s3[1..], IsRegexSpace);
        match MatchName(s4)
        case None => None
        case Some(n) =>
          assert s3 == ";" + s3[1..];
          Some(UniFields(lead, hex, before, after, n))
  }

  /** Every well-formed line is matched, and split as it was built: with
      the soundness of `MatchUniLine`, a line gives a caption exactly when
      it is the text of well-formed pieces. */
  lemma MatchUniLineComplete(f: UniFields)
    requires WellFormedFields(f)
    ensures MatchUniLine(FieldsText(f)) == Some(f)
  {
    var s4 := NameText(f.field);
    var s3 := ";" + (f.afterSemi + s4);
    var s2 := f.beforeSemi + s3;
    var s1 := f.hex + s2;
    SpanOf(f.lead, s1, IsRegexSpace);
    if f.beforeSemi != [] {
      assert s2[0] == f.beforeSemi[0];
    }
    SpanOf(f.hex, s2, IsHexDigit);
    SpanOf(f.beforeSemi, s3, IsRegexSpace);
    assert s3[1..] == f.afterSemi + s4;
    assert s4[0] == f.field.name[0];
    SpanOf(f.afterSemi, s4, IsRegexSpace);
    MatchNameComplete(f.field);
  }

  /** What `uniBegin` stores for a line: the character number the digits
      give and the name in title case, or nothing when the line does not
      match. */
  function UniCaption(line: string): (r: Option<(int, string)>)
    ensures r.Some? ==> 0 <= r.value.0 < 0x100_0000
  {
    match MatchUniLine(line)
    case None => None
    case Some(f) =>
      HexRunBound(f.hex);
      Some((HexValue(f.hex), PlainText.Titled(f.field.name)))
  }
}
