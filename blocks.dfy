/** The block-table generator: each line of Blocks.txt of the form
    `start..end; name` becomes two lines of Java source, an `else if` that
    tests whether a character number lies in the block and an assignment of
    the block's name to the caption. The line pattern is
    `^\s*([0-9A-Fa-f]+)\s*\.\.\s*([0-9A-Fa-f]+)\s*;\s*(\S.*\S)\s*$`;
    every other line (comments, blank lines) gives nothing. */
module Blocks {
  import opened JavaLang

  /** The text `(\S.*\S)` captures when it runs to the last non-space of
      the line: two characters or more, neither end a space, and no line
      terminator strictly inside (the `.` does not cross one). */
  predicate IsBlockName(name: string) {
    |name| >= 2 && !IsRegexSpace(name[0]) && !IsRegexSpace(name[|name| - 1]) &&
    forall i | 1 <= i < |name| - 1 :: !IsLineTerminator(name[i])
  }

  /** `\S` that `$` may stop before when it is the last character of the
      line: a line terminator that is no `\s` (U+0085, U+2028, U+2029). */
  predicate IsFinalTerminator(c: char) {
    IsLineTerminator(c) && !IsRegexSpace(c)
  }

  /** The pieces of `;\s*(\S.*\S)\s*$`: the spaces after the `;`, the
      name, the trailing spaces, and the final line terminator that `$`
      stopped before, if any. */
  datatype NameTail = NameTail(afterSemi: string, name: string, trail: string, end: string)

  function TailText(t: NameTail): string {
    ";" + (t.afterSemi + (t.name + (t.trail + t.end)))
  }

  /** The name runs to the last non-space of the line; only when that
      cannot be matched, because a line terminator sits inside it, does the
      match stop before a final line terminator. */
  predicate WellFormedTail(t: NameTail) {
    All(t.afterSemi, IsRegexSpace) && IsBlockName(t.name) && All(t.trail, IsRegexSpace) &&
    (t.end == [] ||
     (|t.end| == 1 && IsFinalTerminator(t.end[0]) && !IsBlockName(t.name + t.trail + t.end)))
  }

  /** The pieces of a line the pattern matches: the spaces before the first
      bound, the two bounds, the spaces around `..` and `;`, and the name
      part. */
  datatype BlockLine = BlockLine(lead: string, first: string, beforeDots: string,
                                 afterDots: string, last: string, beforeSemi: string,
                                 tail: NameTail)

  function BlockText(b: BlockLine): string {
    b.lead + (b.first + (b.beforeDots + (".." + (b.afterDots + (b.last +
      (b.beforeSemi + TailText(b.tail)))))))
  }

  predicate WellFormedBlock(b: BlockLine) {
    All(b.lead, IsRegexSpace) &&
    b.first != [] && All(b.first, IsHexDigit) &&
    All(b.beforeDots, IsRegexSpace) && All(b.afterDots, IsRegexSpace) &&
    b.last != [] && All(b.last, IsHexDigit) &&
    All(b.beforeSemi, IsRegexSpace) && WellFormedTail(b.tail)
  }

  /** `;\s*(\S.*\S)\s*$` against all of `s`. The greedy `.*` first tries
      the name that ends at the last non-space of the line; failing that,
      `$` may match just before a final line terminator. */
  function MatchNameTail(s: string): (r: Option<NameTail>)
    ensures r.Some? ==> WellFormedTail(r.value) && TailText(r.value) == s
  {
    if s == [] || s[0] != ';' then None
    else
      var (after, tail) := Span(s[1..], IsRegexSpace);
      var (name, trail) := BackSpan(tail, IsRegexSpace);
      if IsBlockName(name) then
        assert ";" + s[1..] == s;
        Some(NameTail(after, name, trail, []))
      else if tail != [] && IsFinalTerminator(tail[|tail| - 1]) then
        var (name2, trail2) := BackSpan(tail[..|tail| - 1], IsRegexSpace);
        if IsBlockName(name2) then
          BeforeTerminator(s, after, tail, name2, trail2);
          Some(NameTail(after, name2, trail2, [tail[|tail| - 1]]))
        else None
      else None
  }

  /** The pieces of a match that stops before a final line terminator. */
  lemma BeforeTerminator(s: string, after: string, tail: string, name: string, trail: string)
    requires s != [] && s[0] == ';' && s[1..] == after + tail && All(after, IsRegexSpace)
    requires !IsBlockName(BackSpan(tail, IsRegexSpace).0)
    requires tail != [] && IsFinalTerminator(tail[|tail| - 1])
    requires name + trail == tail[..|tail| - 1] && IsBlockName(name) && All(trail, IsRegexSpace)
    ensures WellFormedTail(NameTail(after, name, trail, [tail[|tail| - 1]]))
    ensures TailText(NameTail(after, name, trail, [tail[|tail| - 1]])) == s
  {
    assert BackSpan(tail, IsRegexSpace) == (tail, []);
    LastSplit(tail);
    assert ";" + s[1..] == s;
  }

  /** `..\s*([0-9A-Fa-f]+)\s*` followed by the name part, against all of
      `s`. */
  function MatchUpperBound(s: string): (r: Option<(string, string, string, NameTail)>)
    ensures r.Some? ==>
              All(r.value.0, IsRegexSpace) && r.value.1 != [] && All(r.value.1, IsHexDigit) &&
              All(r.value.2, IsRegexSpace) && WellFormedTail(r.value.3) &&
              ".." + (r.value.0 + (r.value.1 + (r.value.2 + TailText(r.value.3)))) == s
  {
    if |s| < 2 || s[0] != '.' || s[1] != '.' then None
    else
      var (afterDots, s1) := Span(s[2..], IsRegexSpace);
      var (last, s2) := Span(s1, IsHexDigit);
      var (beforeSemi, s3) := Span(s2, IsRegexSpace);
      if last == [] then None
      else match MatchNameTail(s3)
        case None => None
        case Some(t) =>
          assert ".." + s[2..] == s;
          Some((afterDots, last, beforeSemi, t))
  }

  /** The pattern of the block-table generator, matched from the start of
      the line. Each run of spaces or digits is as long as it can be: what
      follows it can never be one of its own characters, so no shorter run
      lets the match succeed. */
  function MatchBlockLine(line: string): (r: Option<BlockLine>)
    ensures r.Some? ==> WellFormedBlock(r.value) && BlockText(r.value) == line
  {
    var (lead, s1) := Span(line, IsRegexSpace);
    var (first, s2) := Span(s1, IsHexDigit);
    var (beforeDots, s3) := Span(s2, IsRegexSpace);
    if first == [] then None
    else match MatchUpperBound(s3)
      case None => None
      case Some((afterDots, last, beforeSemi, t)) =>
        Some(BlockLine(lead, first, beforeDots, afterDots, last, beforeSemi, t))
  }

  /** The name part of a well-formed line is matched, and split as it was
      built. */
  lemma MatchNameTailComplete(t: NameTail)
    requires WellFormedTail(t)
    ensures MatchNameTail(TailText(t)) == Some(t)
  {
    var tail := t.name + (t.trail + t.end);
    var s := TailText(t);
    assert s[1..] == t.afterSemi + tail;
    assert tail[0] == t.name[0];
    SpanOf(t.afterSemi, tail, IsRegexSpace);
    assert s == ";" + (t.afterSemi + tail);
    if t.end == [] {
      assert tail == t.name + t.trail;
      BackSpanOf(t.name, t.trail, IsRegexSpace);
    } else {
      TerminatedTail(t.name, t.trail, t.end);
      assert [tail[|tail| - 1]] == t.end;
    }
  }

  /** The name part that ends in a final line terminator: the name that
      runs to the end fails, and the one before the terminator is found. */
  lemma TerminatedTail(name: string, trail: string, end: string)
    requires IsBlockName(name) && All(trail, IsRegexSpace)
    requires |end| == 1 && IsFinalTerminator(end[0]) && !IsBlockName(name + trail + end)
    ensures var tail := name + (trail + end);
      BackSpan(tail, IsRegexSpace) == (tail, []) && !IsBlockName(tail) &&
      tail != [] && tail[|tail| - 1] == end[0] &&
      BackSpan(tail[..|tail| - 1], IsRegexSpace) == (name, trail)
  {
    var tail := name + (trail + end);
    assert tail == name + trail + end;
    assert tail[|tail| - 1] == end[0];
    assert BackSpan(tail, IsRegexSpace) == (tail, []);
    assert tail[..|tail| - 1] == name + trail;
    BackSpanOf(name, trail, IsRegexSpace);
  }

  /** A non-empty string is its front and its last character. */
  lemma LastSplit(s: string)
    requires s != []
    ensures s[..|s| - 1] + [s[|s| - 1]] == s
  {
  }

  /** Every well-formed line is matched, and split as it was built: with
      the soundness of `MatchBlockLine`, a line matches exactly when it is
      the text of well-formed pieces. */
  lemma MatchBlockLineComplete(b: BlockLine)
    requires WellFormedBlock(b)
    ensures MatchBlockLine(BlockText(b)) == Some(b)
  {
    var u := ".." + (b.afterDots + (b.last + (b.beforeSemi + TailText(b.tail))));
    var s1 := b.beforeDots + u;
    var s0 := b.first + s1;
    SpanOf(b.lead, s0, IsRegexSpace);
    if b.beforeDots != [] {
      assert s1[0] == b.beforeDots[0];
    }
    SpanOf(b.first, s1, IsHexDigit);
    SpanOf(b.beforeDots, u, IsRegexSpace);
    MatchUpperBoundComplete(b.afterDots, b.last, b.beforeSemi, b.tail);
  }

  /** The part of a well-formed line from the `..` on is matched, and split
      as it was built. */
  lemma MatchUpperBoundComplete(afterDots: string, last: string, beforeSemi: string, t: NameTail)
    requires All(afterDots, IsRegexSpace) && last != [] && All(last, IsHexDigit)
    requires All(beforeSemi, IsRegexSpace) && WellFormedTail(t)
    ensures MatchUpperBound(".." + (afterDots + (last + (beforeSemi + TailText(t)))))
            == Some((afterDots, last, beforeSemi, t))
  {
    var s5 := TailText(t);
    var s4 := beforeSemi + s5;
    var s3 := last + s4;
    var s2 := afterDots + s3;
    var u := ".." + s2;
    assert u[2..] == s2;
    SpanOf(afterDots, s3, IsRegexSpace);
    if beforeSemi != [] {
      assert s4[0] == beforeSemi[0];
    }
    SpanOf(last, s4, IsHexDigit);
    SpanOf(beforeSemi, s5, IsRegexSpace);
    MatchNameTailComplete(t);
  }

  // ---------------------------------------------------------------------
  // The emitted Java source

  /** The range test for a block whose bounds are written `first` and
      `last`. */
  function RangeTest(first: string, last: string): string {
    "      else if ((value >= 0x" + first + ") && (value <= 0x" + last + "))"
  }

  /** The caption assignment for a block named `name`. */
  function CaptionAssignment(name: string): string {
    "        caption = \"" + name + "\";"
  }

  /** The lines written for one input line: the range test, with both
      bounds in upper case, and the caption assignment, or nothing when the
      line does not match. */
  function BlockLines(line: string): (r: seq<string>)
    ensures |r| == 0 || |r| == 2
  {
    match MatchBlockLine(line)
    case None => []
    case Some(b) => [RangeTest(UpperString(b.first), UpperString(b.last)), CaptionAssignment(b.tail.name)]
  }

  /** The lines `emit` gives for each input line, one input line after the
      other. */
  function Concat(emit: string -> seq<string>, lines: seq<string>): seq<string>
    decreases |lines|
  {
    if lines == [] then []
    else Concat(emit, lines[..|lines| - 1]) + emit(lines[|lines| - 1])
  }

  /** The lines written for a whole input file. */
  function BlockCode(lines: seq<string>): seq<string> {
    Concat(BlockLines, lines)
  }

  /** The generator's loop: each input line is matched in turn and, when it
      matches, its two lines are written. */
  method WriteBlocks(lines: seq<string>) returns (output: seq<string>)
    ensures output == BlockCode(lines)
  {
    output := [];
    var i := 0;
    while i < |lines|
      invariant 0 <= i <= |lines|
      invariant output == Concat(BlockLines, lines[..i])
    {
      ghost var before := output;
      match MatchBlockLine(lines[i]) {
        case None =>
          assert BlockLines(lines[i]) == [];
        case Some(b) =>
          var range := RangeTest(UpperString(b.first), UpperString(b.last));
          var caption := CaptionAssignment(b.tail.name);
          output := output + [range];
          output := output + [caption];
          TwoLines(before, range, caption);
          assert BlockLines(lines[i]) == [range, caption];
      }
      ConcatSnoc(BlockLines, lines, i);
      i := i + 1;
    }
    assert lines[..i] == lines;
  }

  /** Two lines written one after the other. */
  lemma TwoLines(s: seq<string>, x: string, y: string)
    ensures s + [x] + [y] == s + [x, y]
  {
  }

  /** One more input line adds its own lines at the end. */
  lemma ConcatSnoc(emit: string -> seq<string>, lines: seq<string>, i: nat)
    requires i < |lines|
    ensures Concat(emit, lines[..i + 1]) == Concat(emit, lines[..i]) + emit(lines[i])
  {
    assert lines[..i + 1][..i] == lines[..i];
  }

  // ---------------------------------------------------------------------
  // Properties

  /** A well-formed line gives its range test, with the bounds it was
      written with in upper case, and its caption assignment. */
  lemma BlockLinesOf(b: BlockLine)
    requires WellFormedBlock(b)
    ensures BlockLines(BlockText(b)) ==
              [RangeTest(UpperString(b.first), UpperString(b.last)), CaptionAssignment(b.tail.name)]
  {
    MatchBlockLineComplete(b);
  }

  /** A line gives output exactly when it is the text of well-formed
      pieces; every other line gives nothing. */
  lemma BlockLinesWhen(line: string)
    ensures BlockLines(line) != [] <==> exists b | WellFormedBlock(b) :: BlockText(b) == line
  {
    if b :| WellFormedBlock(b) && BlockText(b) == line {
      MatchBlockLineComplete(b);
    }
  }

  /** A line whose first non-space is not a hexadecimal digit (a `#`
      comment, a blank line, a line of spaces) gives nothing. */
  lemma NoDigitNoLines(line: string)
    requires var rest := Span(line, IsRegexSpace).1; rest == [] || !IsHexDigit(rest[0])
    ensures BlockLines(line) == []
  {
  }

  /** Upper-casing a string of hexadecimal digits keeps every digit and
      turns it into a digit of the same value. */
  lemma {:induction false} UpperHexValue(h: string)
    requires All(h, IsHexDigit)
    ensures All(UpperString(h), IsUpperHexDigit)
    ensures HexValue(UpperString(h)) == HexValue(h)
    decreases |h|
  {
    var u := UpperString(h);
    if h != [] {
      var n := |h| - 1;
      UpperHexValue(h[..n]);
      assert UpperString(h[..n]) == u[..n];
      assert HexDigitValue(u[n]) == HexDigitValue(h[n]);
    }
  }

  /** The range test of a matched line states the block's bounds, in upper
      case and with the values they were written with. */
  lemma RangeTestBounds(line: string)
    requires MatchBlockLine(line).Some?
    ensures var b := MatchBlockLine(line).value;
      var r := BlockLines(line);
      |r| == 2 &&
      r[0] == RangeTest(UpperString(b.first), UpperString(b.last)) &&
      All(UpperString(b.first), IsUpperHexDigit) && All(UpperString(b.last), IsUpperHexDigit) &&
      HexValue(UpperString(b.first)) == HexValue(b.first) &&
      HexValue(UpperString(b.last)) == HexValue(b.last)
  {
    var b := MatchBlockLine(line).value;
    UpperHexValue(b.first);
    UpperHexValue(b.last);
  }

  /** `s` with its leading and trailing spaces removed. */
  function Trimmed(s: string): string {
    BackSpan(Span(s, IsRegexSpace).1, IsRegexSpace).0
  }

  /** The caption assignment names the block with the text after the `;`,
      spaces removed from both ends (and a final line terminator, when the
      match stopped before one), and that name is at least two characters
      long. */
  lemma CaptionIsTrimmedName(line: string)
    requires MatchBlockLine(line).Some?
    ensures var t := MatchBlockLine(line).value.tail;
      var r := BlockLines(line);
      |r| == 2 && r[1] == CaptionAssignment(t.name) &&
      t.name == Trimmed(t.afterSemi + (t.name + t.trail)) && |t.name| >= 2 &&
      (t.end == [] || (|t.end| == 1 && IsFinalTerminator(t.end[0])))
  {
    var t := MatchBlockLine(line).value.tail;
    var tail := t.name + t.trail;
    assert tail[0] == t.name[0];
    SpanOf(t.afterSemi, tail, IsRegexSpace);
    BackSpanOf(t.name, t.trail, IsRegexSpace);
  }

  /** The output for a file is the output for its first part followed by
      the output for the rest: blocks come out in input order. */
  lemma BlockCodeAppend(a: seq<string>, b: seq<string>)
    ensures BlockCode(a + b) == BlockCode(a) + BlockCode(b)
  {
    ConcatAppend(BlockLines, a, b);
  }

  lemma {:induction false} ConcatAppend(emit: string -> seq<string>, a: seq<string>, b: seq<string>)
    ensures Concat(emit, a + b) == Concat(emit, a) + Concat(emit, b)
    decreases |b|
  {
    if b == [] {
      assert a + b == a;
    } else {
      var n := |b| - 1;
      assert (a + b)[..|a + b| - 1] == a + b[..n];
      ConcatAppend(emit, a, b[..n]);
    }
  }

  /** The number of lines that match. */
  function MatchCount(lines: seq<string>): (n: nat)
    ensures n <= |lines|
    decreases |lines|
  {
    if lines == [] then 0
    else MatchCount(lines[..|lines| - 1]) + (if MatchBlockLine(lines[|lines| - 1]).Some? then 1 else 0)
  }

  /** Exactly two lines are written per matching line. */
  lemma {:induction false} BlockCodeLength(lines: seq<string>)
    ensures |BlockCode(lines)| == 2 * MatchCount(lines)
    decreases |lines|
  {
    if lines != [] {
      BlockCodeLength(lines[..|lines| - 1]);
    }
  }
}
