/** The caption data file of the viewer as `loadConfig` reads it, one line
    at a time, and the point-size check of `setPointSize`. The two regular
    expressions of `loadConfig` are written out as matchers that return the
    pieces of the line they consumed. */
module Config {
  import opened JavaLang
  import opened Utf16
  import opened Notation

  // ---------------------------------------------------------------------
  // Point size

  const DEFAULT_SIZE: int := 30
  const MAX_SIZE: int := 999
  const MIN_SIZE: int := 10

  /** `setPointSize` complains about the text: it is not a decimal Java
      `int`, or the number is out of range. */
  predicate SizeRejected(text: string) {
    !(ParseInt(text).Some? && MIN_SIZE <= ParseInt(text).value <= MAX_SIZE)
  }

  /** The point size `setPointSize(text)` sets: the number written, when
      it parses and is in range, else the default size (`-1` marks text
      that does not parse). */
  function PointSize(text: string): (size: int)
    ensures MIN_SIZE <= size <= MAX_SIZE
    ensures !SizeRejected(text) ==> ParseInt(text) == Some(size)
    ensures SizeRejected(text) ==> size == DEFAULT_SIZE
  {
    var n := match ParseInt(text) case Some(v) => v case None => -1;
    if MIN_SIZE <= n <= MAX_SIZE then n else DEFAULT_SIZE
  }

  /** Every size in range, written in decimal, is taken as it is. */
  lemma PointSizeRoundTrip(n: int)
    requires MIN_SIZE <= n <= MAX_SIZE
    ensures !SizeRejected(IntToString(n)) && PointSize(IntToString(n)) == n
  {
    IntToStringRoundTrip(n);
  }

  /** `parseInt` reads decimal digits of every script, so fullwidth "１２"
      and Arabic-Indic "٤٢" are sizes 12 and 42. */
  lemma PointSizeOtherScripts()
    ensures PointSize("\U{FF11}\U{FF12}") == 12
    ensures PointSize("\U{0664}\U{0662}") == 42
  {
    var a := "\U{FF11}\U{FF12}";
    assert a[..1][..0] == [] && JavaDigitsValue(a[..1]) == 1;
    assert JavaDigitsValue(a) == 12;
    var b := "\U{0664}\U{0662}";
    assert b[..1][..0] == [] && JavaDigitsValue(b[..1]) == 4;
    assert JavaDigitsValue(b) == 42;
  }

  // ---------------------------------------------------------------------
  // The common tail of both patterns: `\s*=\s*(.*\S)\s*$`

  /** A text that `(.*\S)` captures between `\s*` on both sides: not
      empty, neither end a `\s` character, and no line terminator before
      the last character, since `.` does not match one. */
  predicate IsCaptionText(g: string) {
    g != [] && !IsRegexSpace(g[0]) && !IsRegexSpace(g[|g| - 1]) &&
    forall i | 0 <= i < |g| - 1 :: !IsLineTerminator(g[i])
  }

  /** The pieces of `\s*=\s*(.*\S)\s*$`: the spaces before and after the
      `=`, the captured caption and the trailing spaces. */
  datatype Assignment = Assignment(beforeEq: string, afterEq: string, caption: string, trail: string)

  function AssignmentText(t: Assignment): string {
    t.beforeEq + ("=" + (t.afterEq + (t.caption + t.trail)))
  }

  predicate WellFormedAssignment(t: Assignment) {
    All(t.beforeEq, IsRegexSpace) && All(t.afterEq, IsRegexSpace) &&
    IsCaptionText(t.caption) && All(t.trail, IsRegexSpace)
  }

  /** Matches `\s*=\s*(.*\S)\s*$` against all of `s`. The spaces on either
      side of the caption are as many as there are, so the caption starts
      and ends with a non-space; the match fails when nothing but spaces
      follows the `=` or a line terminator sits inside the caption. */
  function MatchAssignment(s: string): (r: Option<Assignment>)
    ensures r.Some? ==> WellFormedAssignment(r.value) && AssignmentText(r.value) == s
  {
    var (before, rest) := Span(s, IsRegexSpace);
    if rest == [] || rest[0] != '=' then None
    else
      var (after, tail) := Span(rest[1..], IsRegexSpace);
      var (g, trail) := BackSpan(tail, IsRegexSpace);
      if g == [] || exists n | 0 <= n < |g| - 1 :: IsLineTerminator(g[n]) then None
      else
        AssignmentOf(s, before, rest, after, tail, g, trail);
        Some(Assignment(before, after, g, trail))
  }

  /** The pieces `MatchAssignment` splits off make up the text, and are
      well-formed. */
  lemma AssignmentOf(s: string, before: string, rest: string, after: string, tail: string,
                     g: string, trail: string)
    requires before + rest == s && All(before, IsRegexSpace) && rest != [] && rest[0] == '='
    requires after + tail == rest[1..] && All(after, IsRegexSpace) && (tail == [] || !IsRegexSpace(tail[0]))
    requires g + trail == tail && All(trail, IsRegexSpace) && (g == [] || !IsRegexSpace(g[|g| - 1]))
    requires g != [] && forall n | 0 <= n < |g| - 1 :: !IsLineTerminator(g[n])
    ensures WellFormedAssignment(Assignment(before, after, g, trail))
    ensures AssignmentText(Assignment(before, after, g, trail)) == s
  {
    assert g[0] == tail[0];
    assert "=" + rest[1..] == rest;
  }

  /** Every well-formed tail is matched, and split as it was built. */
  lemma MatchAssignmentComplete(t: Assignment)
    requires WellFormedAssignment(t)
    ensures MatchAssignment(AssignmentText(t)) == Some(t)
  {
    var tail := t.caption + t.trail;
    var rest := "=" + (t.afterEq + tail);
    SpanOf(t.beforeEq, rest, IsRegexSpace);
    assert rest[1..] == t.afterEq + tail;
    assert tail[0] == t.caption[0];
    SpanOf(t.afterEq, tail, IsRegexSpace);
    BackSpanOf(t.caption, t.trail, IsRegexSpace);
  }

  // ---------------------------------------------------------------------
  // The two line patterns

  /** The pieces of `^\s*[Uu]\+([0-9A-Fa-f]+)\s*=\s*(.*\S)\s*$`. */
  datatype MouseLine = MouseLine(lead: string, u: char, hex: string, rest: Assignment)

  function MouseText(m: MouseLine): string {
    m.lead + ([m.u, '+'] + (m.hex + AssignmentText(m.rest)))
  }

  predicate WellFormedMouse(m: MouseLine) {
    All(m.lead, IsRegexSpace) && (m.u == 'U' || m.u == 'u') &&
    m.hex != [] && All(m.hex, IsHexDigit) && WellFormedAssignment(m.rest)
  }

  /** The mouse-caption pattern of `loadConfig`, matched against the whole
      line. */
  function MatchMouse(text: string): (r: Option<MouseLine>)
    ensures r.Some? ==> WellFormedMouse(r.value) && MouseText(r.value) == text
  {
    var (lead, rest) := Span(text, IsRegexSpace);
    if |rest| < 2 || !(rest[0] == 'U' || rest[0] == 'u') || rest[1] != '+' then None
    else match MatchHexTail(rest[2..])
      case None => None
      case Some((hex, a)) =>
        MouseOf(lead, rest, hex, a);
        Some(MouseLine(lead, rest[0], hex, a))
  }

  lemma MouseOf(lead: string, rest: string, hex: string, a: Assignment)
    requires All(lead, IsRegexSpace) && |rest| >= 2 && (rest[0] == 'U' || rest[0] == 'u') && rest[1] == '+'
    requires hex != [] && All(hex, IsHexDigit) && WellFormedAssignment(a) && hex + AssignmentText(a) == rest[2..]
    ensures WellFormedMouse(MouseLine(lead, rest[0], hex, a)) && MouseText(MouseLine(lead, rest[0], hex, a)) == lead + rest
  {
    assert [rest[0], '+'] + rest[2..] == rest;
  }

  /** `([0-9A-Fa-f]+)` followed by the common tail; the hex digits are as
      many as there are. */
  function MatchHexTail(s: string): (r: Option<(string, Assignment)>)
    ensures r.Some? ==>
              r.value.0 != [] && All(r.value.0, IsHexDigit) &&
              WellFormedAssignment(r.value.1) && r.value.0 + AssignmentText(r.value.1) == s
  {
    var (hex, tail) := Span(s, IsHexDigit);
    if hex == [] then None
    else match MatchAssignment(tail)
      case None => None
      case Some(a) => Some((hex, a))
  }

  /** The text after the hex digits or the word starts with a space or `=`. */
  lemma AssignmentStart(t: Assignment)
    requires WellFormedAssignment(t)
    ensures var s := AssignmentText(t); s != [] && (IsRegexSpace(s[0]) || s[0] == '=')
  {
    if t.beforeEq != [] {
      assert AssignmentText(t)[0] == t.beforeEq[0];
    }
  }

  lemma MatchMouseComplete(m: MouseLine)
    requires WellFormedMouse(m)
    ensures MatchMouse(MouseText(m)) == Some(m)
  {
    var a := AssignmentText(m.rest);
    var rest := [m.u, '+'] + (m.hex + a);
    SpanOf(m.lead, rest, IsRegexSpace);
    assert rest[2..] == m.hex + a;
    MatchHexTailComplete(m.hex, m.rest);
  }

  lemma MatchHexTailComplete(hex: string, t: Assignment)
    requires hex != [] && All(hex, IsHexDigit) && WellFormedAssignment(t)
    ensures MatchHexTail(hex + AssignmentText(t)) == Some((hex, t))
  {
    AssignmentStart(t);
    SpanOf(hex, AssignmentText(t), IsHexDigit);
    MatchAssignmentComplete(t);
  }

  /** The pieces of `^\s*(\w+)\s*=\s*(.*\S)\s*$`. */
  datatype ButtonLine = ButtonLine(lead: string, word: string, rest: Assignment)

  function ButtonText(b: ButtonLine): string {
    b.lead + (b.word + AssignmentText(b.rest))
  }

  predicate WellFormedButton(b: ButtonLine) {
    All(b.lead, IsRegexSpace) && b.word != [] && All(b.word, IsWordChar) && WellFormedAssignment(b.rest)
  }

  /** The button-caption pattern of `loadConfig`, matched against the
      whole line; the word is as long as it goes. */
  function MatchButton(text: string): (r: Option<ButtonLine>)
    ensures r.Some? ==> WellFormedButton(r.value) && ButtonText(r.value) == text
  {
    var (lead, rest) := Span(text, IsRegexSpace);
    var (word, tail) := Span(rest, IsWordChar);
    if word == [] then None
    else match MatchAssignment(tail)
      case None => None
      case Some(a) => Some(ButtonLine(lead, word, a))
  }

  lemma MatchButtonComplete(b: ButtonLine)
    requires WellFormedButton(b)
    ensures MatchButton(ButtonText(b)) == Some(b)
  {
    var a := AssignmentText(b.rest);
    var rest := b.word + a;
    assert rest[0] == b.word[0];
    SpanOf(b.lead, rest, IsRegexSpace);
    AssignmentStart(b.rest);
    SpanOf(b.word, a, IsWordChar);
    MatchAssignmentComplete(b.rest);
  }

  // ---------------------------------------------------------------------
  // Button and menu names

  /** The buttons, menu items and tool tips a data file may rename. */
  datatype Setting =
    | AboutMenu | CharMenu | ClearButton | ClearCaption | CopyButton | CopyCaption
    | ExitMenu | FontCaption | GlyphMenu | MenuButton | MenuCaption | ProgramTitle
    | RightCaption | RightGlyph | RightNotation | RightNumber | RightText | SizeCaption

  /** The lower-case name of a setting in the data file. */
  function SettingName(s: Setting): (name: string)
  {
    match s
    case AboutMenu => "aboutmenu"
    case CharMenu => "charmenu"
    case ClearButton => "clearbutton"
    case ClearCaption => "clearcaption"
    case CopyButton => "copybutton"
    case CopyCaption => "copycaption"
    case ExitMenu => "exitmenu"
    case FontCaption => "fontcaption"
    case GlyphMenu => "glyphmenu"
    case MenuButton => "menubutton"
    case MenuCaption => "menucaption"
    case ProgramTitle => "programtitle"
    case RightCaption => "rightcaption"
    case RightGlyph => "rightglyph"
    case RightNotation => "rightnotation"
    case RightNumber => "rightnumber"
    case RightText => "righttext"
    case SizeCaption => "sizecaption"
  }

  /** Names are lower-case words, none of them starting with `u`. */
  predicate IsLowerWord(name: string) {
    name != [] && name[0] != 'u' && forall c | c in name :: 'a' <= c <= 'z'
  }

  /** Each name is a lower-case word that does not start like a mouse
      caption. */
  lemma SettingNameWord(s: Setting)
    ensures IsLowerWord(SettingName(s))
  {
    match s
    case AboutMenu =>
    case CharMenu =>
    case ClearButton =>
    case ClearCaption =>
    case CopyButton =>
    case CopyCaption =>
    case ExitMenu =>
    case FontCaption =>
    case GlyphMenu =>
    case MenuButton =>
    case MenuCaption =>
    case ProgramTitle =>
    case RightCaption =>
    case RightGlyph =>
    case RightNotation =>
    case RightNumber =>
    case RightText =>
    case SizeCaption =>
  }

  /** Each name is recognised as its own setting (in four groups, along
      the chain of comparisons). */
  lemma SettingOfName(s: Setting)
    ensures SettingOf(SettingName(s)) == Some(s)
  {
    if s.AboutMenu? || s.CharMenu? || s.ClearButton? || s.ClearCaption? || s.CopyButton? || s.CopyCaption? || s.ExitMenu? || s.FontCaption? {
      SettingOfNameGroup1(s);
    } else if s.GlyphMenu? || s.MenuButton? || s.MenuCaption? || s.ProgramTitle? {
      SettingOfNameGroup2(s);
    } else if s.RightCaption? || s.RightGlyph? || s.RightNotation? {
      SettingOfNameGroup3(s);
    } else {
      SettingOfNameGroup4(s);
    }
  }

  lemma SettingOfNameGroup1(s: Setting)
    requires s.AboutMenu? || s.CharMenu? || s.ClearButton? || s.ClearCaption? || s.CopyButton? || s.CopyCaption? || s.ExitMenu? || s.FontCaption?
    ensures SettingOf(SettingName(s)) == Some(s)
  {
  }

  lemma SettingOfNameGroup2(s: Setting)
    requires s.GlyphMenu? || s.MenuButton? || s.MenuCaption? || s.ProgramTitle?
    ensures SettingOf(SettingName(s)) == Some(s)
  {
  }

  lemma SettingOfNameGroup3(s: Setting)
    requires s.RightCaption? || s.RightGlyph? || s.RightNotation?
    ensures SettingOf(SettingName(s)) == Some(s)
  {
  }

  lemma SettingOfNameGroup4(s: Setting)
    requires s.RightNumber? || s.RightText? || s.SizeCaption?
    ensures SettingOf(SettingName(s)) == Some(s)
  {
  }

  /** The chain of name comparisons in `loadConfig`. */
  function SettingOf(word: string): (r: Option<Setting>)
    ensures r.Some? ==> word == SettingName(r.value)
  {
    if word == "aboutmenu" then Some(AboutMenu)
    else if word == "charmenu" then Some(CharMenu)
    else if word == "clearbutton" then Some(ClearButton)
    else if word == "clearcaption" then Some(ClearCaption)
    else if word == "copybutton" then Some(CopyButton)
    else if word == "copycaption" then Some(CopyCaption)
    else if word == "exitmenu" then Some(ExitMenu)
    else if word == "fontcaption" then Some(FontCaption)
    else if word == "glyphmenu" then Some(GlyphMenu)
    else if word == "menubutton" then Some(MenuButton)
    else if word == "menucaption" then Some(MenuCaption)
    else if word == "programtitle" then Some(ProgramTitle)
    else if word == "rightcaption" then Some(RightCaption)
    else if word == "rightglyph" then Some(RightGlyph)
    else if word == "rightnotation" then Some(RightNotation)
    else if word == "rightnumber" then Some(RightNumber)
    else if word == "righttext" then Some(RightText)
    else if word == "sizecaption" then Some(SizeCaption)
    else None
  }

  // ---------------------------------------------------------------------
  // One line

  /** What `loadConfig` does with one line: nothing for a blank line or a
      comment; a mouse caption for a character; a complaint about a
      character number beyond Unicode; a new text for a button or menu; a
      complaint about an unknown name; a complaint about anything else. */
  datatype ConfigLine =
    | Ignored
    | CaptionLine(code: int, caption: string)
    | CodeOutOfRange
    | LabelLine(setting: Setting, text: string)
    | UnknownName
    | UnknownCommand

  /** The first character that is not `Character.isWhitespace`, if there
      is one, is `#`. */
  predicate IsBlankOrComment(text: string) {
    forall k | 0 <= k < |text| && All(text[..k], IsJavaWhitespace) && !IsJavaWhitespace(text[k]) :: text[k] == '#'
  }

  /** The body of the read loop of `loadConfig` for one line: blank lines
      and comments first, then the mouse-caption pattern, then the
      button-caption pattern. */
  function ClassifyLine(text: string): (r: ConfigLine)
    ensures r.Ignored? <==> IsBlankOrComment(text)
    ensures r.CaptionLine? ==> 0 <= r.code <= MAX_CODE_POINT && IsCaptionText(r.caption)
    ensures r.LabelLine? ==> IsCaptionText(r.text)
  {
    var (lead, rest) := Span(text, IsJavaWhitespace);
    BlankOrCommentSpan(text);
    if rest == [] || rest[0] == '#' then Ignored else ClassifyCommand(text)
  }

  /** A line that is neither blank nor a comment. */
  function ClassifyCommand(text: string): (r: ConfigLine)
    ensures !r.Ignored?
    ensures r.CaptionLine? ==> 0 <= r.code <= MAX_CODE_POINT && IsCaptionText(r.caption)
    ensures r.LabelLine? ==> IsCaptionText(r.text)
  {
    match MatchMouse(text)
    case Some(m) => MouseCaption(m)
    case None =>
      match MatchButton(text)
      case Some(b) => ButtonCaption(b)
      case None => UnknownCommand
  }

  /** A matched mouse-caption line: the hex digits go through
      `Integer.parseInt(_, 16)`, which fails beyond `Integer.MAX_VALUE`
      (and gives -1); a number beyond Unicode is refused. */
  function MouseCaption(m: MouseLine): (r: ConfigLine)
    requires WellFormedMouse(m)
    ensures r.CaptionLine? || r.CodeOutOfRange?
    ensures r.CaptionLine? <==> HexValue(m.hex) <= MAX_CODE_POINT
    ensures r.CaptionLine? ==> r.code == HexValue(m.hex) && r.caption == m.rest.caption
  {
    var v := HexValue(m.hex);
    var code := if v <= MAX_INT then v else -1;
    if 0 <= code <= MAX_CODE_POINT then CaptionLine(code, m.rest.caption) else CodeOutOfRange
  }

  /** A matched button-caption line: the word, lower-cased, must name a
      setting. */
  function ButtonCaption(b: ButtonLine): (r: ConfigLine)
    requires WellFormedButton(b)
    ensures r.LabelLine? || r.UnknownName?
    ensures r.LabelLine? <==> SettingOf(LowerString(b.word)).Some?
    ensures r.LabelLine? ==> SettingName(r.setting) == LowerString(b.word) && r.text == b.rest.caption
  {
    match SettingOf(LowerString(b.word))
    case Some(s) => LabelLine(s, b.rest.caption)
    case None => UnknownName
  }

  /** Skipping the leading white space finds what decides blank lines and
      comments. */
  lemma BlankOrCommentSpan(text: string)
    ensures var (lead, rest) := Span(text, IsJavaWhitespace);
      IsBlankOrComment(text) <==> rest == [] || rest[0] == '#'
  {
    var (lead, rest) := Span(text, IsJavaWhitespace);
    var n := |lead|;
    assert text[..n] == lead;
    assert n < |text| ==> text[n] == rest[0];
    forall k | 0 <= k < |text| && All(text[..k], IsJavaWhitespace) && !IsJavaWhitespace(text[k])
      ensures k == n
    {
      SpanStops(text, k);
    }
  }

  /** The first character outside a span is the first that fails `p`. */
  lemma SpanStops(text: string, k: nat)
    requires k < |text| && All(text[..k], IsJavaWhitespace) && !IsJavaWhitespace(text[k])
    ensures k == |Span(text, IsJavaWhitespace).0|
  {
    var (lead, rest) := Span(text, IsJavaWhitespace);
    var n := |lead|;
    assert forall i | 0 <= i < n :: text[i] == lead[i];
    assert forall i | 0 <= i < k :: IsJavaWhitespace(text[i]) by {
      assert forall i | 0 <= i < k :: text[..k][i] == text[i];
    }
    assert n < |text| ==> text[n] == rest[0];
  }

  /** A caption line in the form the caption generator writes,
      `U+XXXX = caption`, reads back as that caption for that character. */
  lemma CaptionLineRoundTrip(v: int, caption: string)
    requires 0 <= v <= MAX_CODE_POINT && IsCaptionText(caption)
    ensures ClassifyLine(UnicodeNotation(v) + " = " + caption) == CaptionLine(v, caption)
  {
    var s := UnicodeNotation(v);
    UnicodeNotationShape(v);
    assert s[0] == s[..2][0] && s[1] == s[..2][1];
    assert All(s[2..], IsHexDigit) by {
      forall i | 0 <= i < |s| - 2 ensures IsHexDigit(s[2..][i]) {
        assert s[2..][i] == s[i + 2];
      }
    }
    HexCaptionLine(s, v, caption);
  }

  /** `U+hex = caption` for hex digits worth a code point. */
  lemma HexCaptionLine(s: string, v: int, caption: string)
    requires |s| >= 3 && s[0] == 'U' && s[1] == '+' && IsCaptionText(caption)
    requires All(s[2..], IsHexDigit) && HexValue(s[2..]) == v <= MAX_CODE_POINT
    ensures ClassifyLine(s + " = " + caption) == CaptionLine(v, caption)
  {
    var m := MouseLine([], 'U', s[2..], Assignment(" ", " ", caption, []));
    HexMouse(s, caption);
    MatchMouseComplete(m);
    CommandLine(s + " = " + caption);
    CommandMouse(s + " = " + caption, m);
  }

  lemma CommandMouse(text: string, m: MouseLine)
    requires MatchMouse(text) == Some(m)
    ensures ClassifyCommand(text) == MouseCaption(m)
  {
  }

  /** `U+hex = caption` is a mouse line. */
  lemma HexMouse(s: string, caption: string)
    requires |s| >= 3 && s[0] == 'U' && s[1] == '+' && IsCaptionText(caption)
    requires All(s[2..], IsHexDigit)
    ensures var m := MouseLine([], 'U', s[2..], Assignment(" ", " ", caption, []));
      WellFormedMouse(m) && MouseText(m) == s + " = " + caption && (s + " = " + caption)[0] == 'U'
  {
    assert s == [s[0], s[1]] + s[2..];
  }

  /** A line whose first character is neither white space nor `#` is a
      command. */
  lemma CommandLine(text: string)
    requires text != [] && !IsJavaWhitespace(text[0]) && text[0] != '#'
    ensures ClassifyLine(text) == ClassifyCommand(text)
  {
    SpanOf([], text, IsJavaWhitespace);
  }

  /** A line starting with a letter other than `u` or `U` is no mouse
      line. */
  lemma NotMouseLine(line: string)
    requires line != [] && 'a' <= line[0] <= 'z' && line[0] != 'u'
    ensures MatchMouse(line) == None
  {
    SpanOf([], line, IsRegexSpace);
  }

  /** A `name = text` line for a known name reads back as that text for
      that setting. */
  lemma LabelLineRoundTrip(st: Setting, text: string)
    requires IsCaptionText(text)
    ensures ClassifyLine(SettingName(st) + " = " + text) == LabelLine(st, text)
  {
    var name := SettingName(st);
    SettingOfName(st);
    SettingNameWord(st);
    LowerWordLine(name, text);
    ButtonOf(ButtonLine([], name, Assignment(" ", " ", text, [])), st);
  }

  /** A lower-case word followed by ` = ` and a caption is a button
      line, and no mouse line. */
  lemma LowerWordLine(name: string, text: string)
    requires IsLowerWord(name) && IsCaptionText(text)
    ensures var b := ButtonLine([], name, Assignment(" ", " ", text, []));
      LowerString(name) == name && WellFormedButton(b) && ClassifyLine(name + " = " + text) == ButtonCaption(b)
  {
    var line := name + " = " + text;
    var b := ButtonLine([], name, Assignment(" ", " ", text, []));
    LowerWordButton(name, text);
    MatchButtonComplete(b);
    CommandLine(line);
    NotMouseLine(line);
  }

  lemma LowerWordButton(name: string, text: string)
    requires IsLowerWord(name) && IsCaptionText(text)
    ensures var b := ButtonLine([], name, Assignment(" ", " ", text, []));
      WellFormedButton(b) && ButtonText(b) == name + " = " + text
    ensures var line := name + " = " + text;
      line != [] && 'a' <= line[0] <= 'z' && line[0] != 'u' && !IsJavaWhitespace(line[0])
    ensures LowerString(name) == name
  {
    LowerWordChars(name);
    assert (name + " = " + text)[0] == name[0];
  }

  lemma LowerWordChars(name: string)
    requires IsLowerWord(name)
    ensures All(name, IsWordChar) && 'a' <= name[0] <= 'z' && LowerString(name) == name
  {
    assert name[0] in name;
    forall i | 0 <= i < |name| ensures IsWordChar(name[i]) && LowerString(name)[i] == name[i] {
      assert name[i] in name;
    }
  }

  lemma ButtonOf(b: ButtonLine, st: Setting)
    requires WellFormedButton(b) && SettingOf(LowerString(b.word)) == Some(st)
    ensures ButtonCaption(b) == LabelLine(st, b.rest.caption)
  {
  }

  // ---------------------------------------------------------------------
  // The whole file

  /** The captions and the button and menu texts a data file sets. */
  datatype Loaded = Loaded(captions: map<int, string>, labels: map<Setting, string>)

  /** One line's effect: `captionPut` for a caption, `setText` or
      `setToolTipText` for a setting; complaints change nothing. */
  function Apply(c: Loaded, line: ConfigLine): Loaded {
    match line
    case CaptionLine(code, caption) => c.(captions := c.captions[code := caption])
    case LabelLine(s, text) => c.(labels := c.labels[s := text])
    case _ => c
  }

  /** The classified lines applied in order, starting from no captions. */
  function LoadAll(lines: seq<ConfigLine>): Loaded
    decreases |lines|
  {
    if lines == [] then Loaded(map[], map[]) else Apply(LoadAll(lines[..|lines| - 1]), lines[|lines| - 1])
  }

  function Classified(lines: seq<string>): (r: seq<ConfigLine>)
    ensures |r| == |lines| && forall i | 0 <= i < |lines| :: r[i] == ClassifyLine(lines[i])
  {
    seq(|lines|, i requires 0 <= i < |lines| => ClassifyLine(lines[i]))
  }

  predicate IsByteOrderMark(c: char) {
    c as int == 0xFEFF || c as int == 0xFFFE
  }

  /** The lines after a byte-order mark at the start of the file, if any,
      is skipped. */
  function WithoutMark(lines: seq<string>): (r: seq<string>)
    ensures |r| == |lines| && (|r| > 0 ==> r[1..] == lines[1..])
  {
    if |lines| > 0 && |lines[0]| > 0 && IsByteOrderMark(lines[0][0]) then [lines[0][1..]] + lines[1..] else lines
  }

  /** The read loop of `loadConfig` over the lines of the file. */
  method LoadConfig(lines: seq<string>) returns (loaded: Loaded)
    ensures loaded == LoadAll(Classified(WithoutMark(lines)))
  {
    var text := WithoutMark(lines);
    ghost var classified := Classified(text);
    loaded := Loaded(map[], map[]);
    var k := 0;
    while k < |text|
      invariant 0 <= k <= |text|
      invariant loaded == LoadAll(classified[..k])
    {
      var line := ClassifyLine(text[k]);
      LoadAllSnoc(classified[..k + 1]);
      assert classified[..k + 1][..k] == classified[..k];
      loaded := Apply(loaded, line);
      k := k + 1;
    }
    assert classified[..|text|] == classified;
  }

  lemma LoadAllSnoc(lines: seq<ConfigLine>)
    requires lines != []
    ensures LoadAll(lines) == Apply(LoadAll(lines[..|lines| - 1]), lines[|lines| - 1])
  {
  }

  /** The last caption line for a character decides its caption. */
  lemma {:induction false} LoadAllLastCaption(lines: seq<ConfigLine>, k: nat)
    requires k < |lines| && lines[k].CaptionLine?
    requires forall j | k < j < |lines| :: !(lines[j].CaptionLine? && lines[j].code == lines[k].code)
    ensures lines[k].code in LoadAll(lines).captions && LoadAll(lines).captions[lines[k].code] == lines[k].caption
    decreases |lines|
  {
    if k < |lines| - 1 {
      var front := lines[..|lines| - 1];
      assert front[k] == lines[k];
      LoadAllLastCaption(front, k);
    }
  }

  /** Every caption loaded comes from a caption line for that character. */
  lemma {:induction false} LoadAllCaptionSource(lines: seq<ConfigLine>, v: int)
    requires v in LoadAll(lines).captions
    ensures exists k | 0 <= k < |lines| :: lines[k] == CaptionLine(v, LoadAll(lines).captions[v])
    decreases |lines|
  {
    var last := |lines| - 1;
    if lines[last] != CaptionLine(v, LoadAll(lines).captions[v]) {
      var front := lines[..last];
      LoadAllCaptionSource(front, v);
      var k :| 0 <= k < |front| && front[k] == CaptionLine(v, LoadAll(front).captions[v]);
      assert lines[k] == front[k];
    }
  }
}
