/** The glyph inventory that the character grid builds whenever the display
    font changes (`CharMap4Grid.paintComponent`): which code points the font
    can show, the first usable glyph of each, and the first code point that
    uses each glyph. The font itself is a foreign object; here it is a value
    whose fields stand for the answers of `canDisplay`, `createGlyphVector`,
    `getNumGlyphs`, `getMissingGlyphCode` and the font metrics. */
module Inventory {
  import opened Utf16

  /** The lowest character number enumerated. */
  const MIN_UNICODE: int := 0

  /** What the character map asks of a font. `glyphCodes(c)` is the glyph
      vector the font produces for the text of code point `c`; `ascent` and
      `height` are the metrics' ascent and line height (never negative) and
      `maxAdvance` the widest advance, or -1 when the font does not know. */
  datatype FontFace = FontFace(
    canDisplay: int -> bool,
    glyphCodes: int -> seq<int>,
    numGlyphs: int,
    missingGlyph: int,
    ascent: nat,
    height: nat,
    maxAdvance: int)

  /** `Math.max(0, font.getNumGlyphs())`: the font's own count is not trusted
      to be non-negative. */
  function GlyphCount(face: FontFace): (n: nat)
    ensures n == 0 <==> face.numGlyphs <= 0
  {
    if face.numGlyphs < 0 then 0 else face.numGlyphs
  }

  /** A glyph code that names a real glyph: within the font's glyph range
      and not the missing-glyph code (spacing glyphs are out of range). */
  predicate Good(face: FontFace, g: int) {
    0 <= g < GlyphCount(face) && g != face.missingGlyph
  }

  /** The first good glyph code in `codes`, or -1 when there is none. */
  function FirstGood(face: FontFace, codes: seq<int>): int
    decreases |codes|
  {
    if codes == [] then -1
    else
      var f := FirstGood(face, codes[..|codes| - 1]);
      if f >= 0 then f
      else if Good(face, codes[|codes| - 1]) then codes[|codes| - 1]
      else -1
  }

  /** The first good glyph is good, occurs in the list, and no earlier code
      in the list is good; it is -1 exactly when no code is good. */
  lemma {:induction false} FirstGoodSpec(face: FontFace, codes: seq<int>)
    ensures FirstGood(face, codes) == -1 <==> forall k | 0 <= k < |codes| :: !Good(face, codes[k])
    ensures FirstGood(face, codes) != -1 ==>
      Good(face, FirstGood(face, codes)) &&
      exists k | 0 <= k < |codes| :: codes[k] == FirstGood(face, codes) && forall j | 0 <= j < k :: !Good(face, codes[j])
    decreases |codes|
  {
    if codes != [] {
      var init := codes[..|codes| - 1];
      FirstGoodSpec(face, init);
      if FirstGood(face, init) != -1 {
        var k :| 0 <= k < |init| && init[k] == FirstGood(face, init) && forall j | 0 <= j < k :: !Good(face, init[j]);
        assert codes[k] == init[k];
      } else {
        var n := |codes| - 1;
        assert forall j | 0 <= j < n :: codes[j] == init[j] && !Good(face, codes[j]);
        if Good(face, codes[n]) {
          assert FirstGood(face, codes) == codes[n];
        } else {
          assert FirstGood(face, codes) == -1;
        }
      }
    }
  }

  /** The glyph the grid shows for code point `c` (`charTemp[c]`): the first
      good glyph of its glyph vector, or -1 when the font cannot display it
      or produces no good glyph. */
  function GlyphOf(face: FontFace, c: int): int {
    if face.canDisplay(c) then FirstGood(face, face.glyphCodes(c)) else -1
  }

  predicate Displayable(face: FontFace, c: int) {
    GlyphOf(face, c) >= 0
  }

  /** A displayable code point has a good glyph that occurs in its glyph
      vector, and the font claims it can display it. */
  lemma GlyphOfSpec(face: FontFace, c: int)
    ensures GlyphOf(face, c) == -1 || Good(face, GlyphOf(face, c))
    ensures Displayable(face, c) ==> face.canDisplay(c) && GlyphOf(face, c) in face.glyphCodes(c)
    ensures !face.canDisplay(c) ==> !Displayable(face, c)
  {
    FirstGoodSpec(face, face.glyphCodes(c));
  }

  /** The displayable code points in `[lo, hi)`, in ascending order: the
      contents of `charChar`. */
  function Displayables(face: FontFace, lo: int, hi: int): seq<int>
    requires 0 <= lo && hi <= MAX_CODE_POINT + 1
    decreases hi - lo
  {
    if hi <= lo then []
    else Displayables(face, lo, hi - 1) + (if Displayable(face, hi - 1) then [hi - 1] else [])
  }

  /** `charChar` is strictly ascending and holds exactly the displayable
      code points of the range. */
  lemma {:induction false} DisplayablesSpec(face: FontFace, lo: int, hi: int)
    requires 0 <= lo && hi <= MAX_CODE_POINT + 1
    ensures var d := Displayables(face, lo, hi);
      (forall i, j | 0 <= i < j < |d| :: d[i] < d[j]) &&
      (forall i | 0 <= i < |d| :: lo <= d[i] < hi && Displayable(face, d[i])) &&
      (forall c | lo <= c < hi :: c in d <==> Displayable(face, c))
    decreases hi - lo
  {
    if hi > lo {
      DisplayablesSpec(face, lo, hi - 1);
    }
  }

  /** A range holds no more displayable code points than code points. */
  lemma {:induction false} DisplayablesLength(face: FontFace, lo: int, hi: int)
    requires 0 <= lo && hi <= MAX_CODE_POINT + 1
    ensures |Displayables(face, lo, hi)| <= if hi <= lo then 0 else hi - lo
    decreases hi - lo
  {
    if hi > lo {
      DisplayablesLength(face, lo, hi - 1);
    }
  }

  /** The list for a shorter range is no longer. */
  lemma {:induction false} DisplayablesGrow(face: FontFace, lo: int, mid: int, hi: int)
    requires 0 <= lo && mid <= hi <= MAX_CODE_POINT + 1
    ensures |Displayables(face, lo, mid)| <= |Displayables(face, lo, hi)|
    decreases hi - mid
  {
    if mid < hi {
      DisplayablesGrow(face, lo, mid, hi - 1);
    }
  }

  /** Code point `c` uses glyph `g`: the font displays `c`, `g` is good and
      occurs in the glyph vector of `c`. */
  predicate Uses(face: FontFace, c: int, g: int) {
    face.canDisplay(c) && Good(face, g) && g in face.glyphCodes(c)
  }

  /** `glyphChar[g]`: the first code point in `[lo, hi)` that uses glyph
      `g`, or -1. */
  function FirstCharOf(face: FontFace, g: int, lo: int, hi: int): int
    decreases hi - lo
  {
    if hi <= lo then -1
    else
      var f := FirstCharOf(face, g, lo, hi - 1);
      if f >= 0 then f
      else if Uses(face, hi - 1, g) then hi - 1
      else -1
  }

  /** `glyphChar[g]` is -1 exactly when no code point of the range uses `g`;
      otherwise it is the smallest one that does. */
  lemma {:induction false} FirstCharOfSpec(face: FontFace, g: int, lo: int, hi: int)
    requires 0 <= lo
    ensures var r := FirstCharOf(face, g, lo, hi);
      (r == -1 <==> forall c | lo <= c < hi :: !Uses(face, c, g)) &&
      (r != -1 ==> lo <= r < hi && Uses(face, r, g) && forall c | lo <= c < r :: !Uses(face, c, g))
    decreases hi - lo
  {
    if hi > lo {
      FirstCharOfSpec(face, g, lo, hi - 1);
    }
  }

  /** The first code point of a glyph is itself in `charChar`: using a good
      glyph makes a code point displayable. */
  lemma FirstCharDisplayed(face: FontFace, g: int, lo: int, hi: int)
    requires 0 <= lo && hi <= MAX_CODE_POINT + 1
    requires FirstCharOf(face, g, lo, hi) != -1
    ensures FirstCharOf(face, g, lo, hi) in Displayables(face, lo, hi)
  {
    FirstCharOfSpec(face, g, lo, hi);
    var r := FirstCharOf(face, g, lo, hi);
    var codes := face.glyphCodes(r);
    FirstGoodSpec(face, codes);
    var k :| 0 <= k < |codes| && codes[k] == g;
    DisplayablesSpec(face, lo, hi);
  }

  /** The four tables of `face` for the code points up to `maxUnicode`:
      its displayable code points in order, the first glyph of each, and
      for each glyph number its first code point (or -1) and itself. */
  predicate IsInventory(face: FontFace, maxUnicode: int, charChar: seq<int>, charGlyph: seq<int>,
                        glyphChar: seq<int>, glyphGlyph: seq<int>)
    requires MIN_UNICODE <= maxUnicode <= MAX_CODE_POINT
  {
    charChar == Displayables(face, MIN_UNICODE, maxUnicode + 1) && |charGlyph| == |charChar| &&
    (forall k | 0 <= k < |charChar| :: charGlyph[k] == GlyphOf(face, charChar[k])) &&
    |glyphChar| == |glyphGlyph| == GlyphCount(face) &&
    forall g | 0 <= g < |glyphChar| ::
      glyphChar[g] == FirstCharOf(face, g, MIN_UNICODE, maxUnicode + 1) && glyphGlyph[g] == g
  }

  /** The inventory loops of `paintComponent`: fills the per-code-point
      table `charTemp`, the per-glyph tables `glyphChar` and `glyphGlyph`,
      then compacts the displayable code points into `charChar` and their
      glyphs into `charGlyph`. `maxUnicode` is `CharMap4.MAX_UNICODE`. */
  method BuildInventory(face: FontFace, maxUnicode: int)
    returns (charChar: array<int>, charGlyph: array<int>, glyphChar: array<int>, glyphGlyph: array<int>)
    requires MIN_UNICODE <= maxUnicode <= MAX_CODE_POINT
    ensures fresh(charChar) && fresh(charGlyph) && fresh(glyphChar) && fresh(glyphGlyph)
    ensures IsInventory(face, maxUnicode, charChar[..], charGlyph[..], glyphChar[..], glyphGlyph[..])
  {
    var charCount := 0;
    var charTemp := new int[maxUnicode + 1];
    var i := 0;
    while i < charTemp.Length
      modifies charTemp
      invariant 0 <= i <= charTemp.Length
      invariant forall c | 0 <= c < i :: charTemp[c] == -1
    {
      charTemp[i] := -1;
      i := i + 1;
    }

    var glyphCount := GlyphCount(face);
    glyphChar := new int[glyphCount];
    glyphGlyph := new int[glyphCount];
    i := 0;
    while i < glyphCount
      modifies glyphChar, glyphGlyph
      invariant 0 <= i <= glyphCount
      invariant forall g | 0 <= g < i :: glyphChar[g] == -1 && glyphGlyph[g] == g
    {
      glyphChar[i] := -1;
      glyphGlyph[i] := i;
      i := i + 1;
    }

    i := MIN_UNICODE;
    while i <= maxUnicode
      modifies charTemp, glyphChar
      invariant MIN_UNICODE <= i <= maxUnicode + 1
      invariant forall c | 0 <= c < i :: charTemp[c] == GlyphOf(face, c)
      invariant forall c | i <= c <= maxUnicode :: charTemp[c] == -1
      invariant forall g | 0 <= g < glyphCount :: glyphChar[g] == FirstCharOf(face, g, MIN_UNICODE, i)
      invariant charCount == |Displayables(face, MIN_UNICODE, i)|
    {
      ScanCodePoint(face, i, charTemp, glyphChar);
      if charTemp[i] >= 0 {
        charCount := charCount + 1;
      }
      i := i + 1;
    }

    charChar, charGlyph := Compact(face, charTemp, maxUnicode, charCount);
  }

  /** One pass of the enumeration: the glyph vector of code point `c` sets
      `charTemp[c]` to its first good glyph and claims every still unclaimed
      good glyph of the vector for `c` in `glyphChar`. */
  method ScanCodePoint(face: FontFace, c: int, charTemp: array<int>, glyphChar: array<int>)
    modifies charTemp, glyphChar
    requires charTemp != glyphChar
    requires MIN_UNICODE <= c < charTemp.Length && charTemp[c] == -1
    requires glyphChar.Length == GlyphCount(face)
    requires forall g | 0 <= g < glyphChar.Length :: glyphChar[g] == FirstCharOf(face, g, MIN_UNICODE, c)
    ensures charTemp[c] == GlyphOf(face, c)
    ensures forall d | 0 <= d < charTemp.Length && d != c :: charTemp[d] == old(charTemp[d])
    ensures forall g | 0 <= g < glyphChar.Length :: glyphChar[g] == FirstCharOf(face, g, MIN_UNICODE, c + 1)
  {
    if !face.canDisplay(c) {
      return;
    }
    var codes := face.glyphCodes(c);
    var k := 0;
    while k < |codes|
      invariant 0 <= k <= |codes|
      invariant charTemp[c] == FirstGood(face, codes[..k])
      invariant forall d | 0 <= d < charTemp.Length && d != c :: charTemp[d] == old(charTemp[d])
      invariant forall g | 0 <= g < glyphChar.Length ::
        glyphChar[g] == (if FirstCharOf(face, g, MIN_UNICODE, c) >= 0 then FirstCharOf(face, g, MIN_UNICODE, c)
                         else if Good(face, g) && g in codes[..k] then c else -1)
    {
      var glyph := codes[k];
      assert codes[..k + 1] == codes[..k] + [glyph];
      assert codes[..k + 1][..k] == codes[..k];
      if 0 <= glyph < glyphChar.Length && glyph != face.missingGlyph {
        if charTemp[c] < 0 {
          charTemp[c] := glyph;
        }
        if glyphChar[glyph] < 0 {
          glyphChar[glyph] := c;
        }
      }
      k := k + 1;
    }
    assert codes[..k] == codes;
  }

  /** The compaction loop: copies the displayable code points, in order, and
      their glyphs out of `charTemp`. */
  method Compact(face: FontFace, charTemp: array<int>, maxUnicode: int, charCount: int)
    returns (charChar: array<int>, charGlyph: array<int>)
    requires MIN_UNICODE <= maxUnicode <= MAX_CODE_POINT && charTemp.Length == maxUnicode + 1
    requires forall c | 0 <= c <= maxUnicode :: charTemp[c] == GlyphOf(face, c)
    requires charCount == |Displayables(face, MIN_UNICODE, maxUnicode + 1)|
    ensures fresh(charChar) && fresh(charGlyph)
    ensures charChar[..] == Displayables(face, MIN_UNICODE, maxUnicode + 1)
    ensures charGlyph.Length == charChar.Length
    ensures forall k | 0 <= k < charChar.Length :: charGlyph[k] == GlyphOf(face, charChar[k])
  {
    charChar := new int[charCount];
    charGlyph := new int[charCount];
    var k := 0;
    var i := MIN_UNICODE;
    while i <= maxUnicode
      modifies charChar, charGlyph
      invariant MIN_UNICODE <= i <= maxUnicode + 1
      invariant k == |Displayables(face, MIN_UNICODE, i)| <= charCount
      invariant charChar[..k] == Displayables(face, MIN_UNICODE, i)
      invariant forall j | 0 <= j < k :: charGlyph[j] == GlyphOf(face, charChar[j])
    {
      DisplayablesGrow(face, MIN_UNICODE, i + 1, maxUnicode + 1);
      var glyph := charTemp[i];
      if glyph >= 0 {
        charChar[k] := i;
        charGlyph[k] := glyph;
        k := k + 1;
      }
      i := i + 1;
    }
    assert charChar[..] == charChar[..k];
  }
}
