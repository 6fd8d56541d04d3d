/** The character grid (`CharMap4Grid`) and the parts of the main class that
    drive it: painting (inventory, cell selection, layout, scroll position,
    the cells drawn), the mouse state machine (press, move, release), the
    scroll bar's change listener, the mouse wheel, the scroll keys, the
    Characters/Glyphs switch and the right-click menu. Drawing calls are left
    out; what is kept is which cells are drawn, where, and in what colours. */
module Grid {
  import opened JavaLang
  import opened Utf16
  import opened Notation
  import opened Captions
  import opened Inventory
  import opened Geometry
  import opened ScrollBars

  /** A cell's character number: a code point, or -1 for a glyph that no
      character maps to. */
  type CharCode = c: int | -1 <= c <= MAX_CODE_POINT

  /** A table size, which Java holds in an `int`. */
  type Count = n: int | 0 <= n <= MAX_INT

  /** A cell index, or `NO_MOUSE` for no cell. */
  type CellRef = i: int | NO_MOUSE <= i

  /** A table of cells, one per entry: its character number and its glyph
      number (the arrays `charChar` and `charGlyph`, `glyphChar` and
      `glyphGlyph`, or `cellChar` and `cellGlyph`, with their count). */
  datatype Table = Table(chars: seq<CharCode>, glyphs: seq<int>) {
    /** Both arrays have the count as length, and the count is a Java `int`. */
    predicate Valid() {
      |chars| == |glyphs| <= MAX_INT
    }

    /** `charCount`, `glyphCount` or `cellCount`. */
    function Count(): int {
      |chars|
    }
  }

  /** The font metrics the grid keeps: the ascent, line height and widest
      character of the font, and the cell steps derived from them. */
  datatype Metrics = Metrics(lineAscent: int, lineHeight: int, maxWidth: int, horizStep: int, vertiStep: int) {
    /** The steps come from a real font's width and height. */
    predicate FromFont() {
      maxWidth >= 10 && lineHeight >= 0 && horizStep == Step(maxWidth) && vertiStep == Step(lineHeight)
    }
  }

  /** The metrics of a font with the given ascent, height and widest
      character. */
  function FontMetrics(ascent: int, height: int, width: int): (m: Metrics)
    requires width >= 10 && height >= 0
    ensures m.FromFont() && m.lineAscent == ascent && m.lineHeight == height && m.maxWidth == width
  {
    Metrics(ascent, height, width, Step(width), Step(height))
  }

  /** The status line when there is nothing to say. */
  const EMPTY_STATUS: string := " "

  /** A display font as the viewer names it: equal keys are the same font. */
  datatype FontKey = FontKey(name: string, style: int, size: int)

  /** The mouse button of a release: button 1, or any other. */
  datatype Button = Primary | Secondary

  /** What the right-click menu remembers of the clicked cell: the status
      caption (empty for none), the character number and the glyph number. */
  datatype Saved = Saved(caption: string, code: CharCode, glyph: int)

  /** The effect of a click outside the grid itself: text handed to the
      sample text field (replacing its contents, or inserted at the caret),
      or the right-click menu shown for a remembered cell. */
  datatype Action = NoAction | EmitText(text: seq<CodeUnit>, replace: bool) | ShowMenu(saved: Saved)

  /** The items of the right-click menu. */
  datatype MenuItem = CopyCaption | CopyGlyph | CopyNotation | CopyNumber | CopyText

  /** The keyboard commands that mimic the scroll bar. */
  datatype KeyCommand = GotoEnd | GotoHome | LineDown | LineUp | PageDown | PageUp

  /** The scroll type of a mouse-wheel event. */
  datatype WheelScroll = BlockScroll | UnitScroll | OtherScroll

  /** One cell drawn by `paintGridCell`: its index, the top-left pixel of
      its border, the colour of its interior and the colour of its glyph. */
  datatype CellPaint = CellPaint(index: int, x: int, y: int, fill: Colour, ink: Colour)

  /** The start of a mouse caption in glyph mode: the glyph number, and
      for a glyph that no character maps to, a note saying so. */
  function GlyphHead(glyph: int, ch: int, formatComma: int -> string): string {
    "Glyph " + formatComma(glyph) + " = " + (if ch < 0 then "no Unicode character mapping" else "")
  }

  /** The guess for a character of an old 8-bit symbol font, which Java
      places at 0xF020 to 0xF0FF: below 0xF07F the caption of the keyboard
      character 0xF000 lower; otherwise the low byte's notation and its
      Alt+ code on Windows, or its decimal number elsewhere. */
  function SymbolGuess(ch: int, mswin: bool, captions: Option<map<int, string>>,
                       blockName: int -> Option<string>, formatComma: int -> string): string
    requires 0xF020 <= ch <= 0xF0FF
  {
    if ch < 0xF07F then CaptionWith(ch - 0xF000, captions, blockName, formatComma)
    else if mswin then UnicodeNotation(ch - 0xF000) + " = " + WinaltNotation(ch - 0xF000)
    else UnicodeNotation(ch - 0xF000) + " = " + "decimal " + formatComma(ch - 0xF000)
  }

  /** The mouse caption of a cell (`mouseMoved`): in glyph mode the glyph
      head first; then, for the symbol-font range in a font with at most 256
      characters, the notation and a guessed character; otherwise the
      standard caption of the character, if it has one. `blockName` is the
      block lookup of `captionGet`. */
  function HoverCaption(ch: int, glyph: int, glyphFlag: bool, charCount: int, mswin: bool,
                        captions: Option<map<int, string>>, blockName: int -> Option<string>,
                        formatComma: int -> string): string
    requires -1 <= ch <= MAX_CODE_POINT
  {
    var body :=
      if 0xF020 <= ch <= 0xF0FF && charCount <= 256 then
        UnicodeNotation(ch) + " =? " + SymbolGuess(ch, mswin, captions, blockName, formatComma)
      else if ch >= 0 then CaptionWith(ch, captions, blockName, formatComma)
      else "";
    if glyphFlag then GlyphHead(glyph, ch, formatComma) + body else body
  }

  /** A symbol-font character below 0xF07F is read as the keyboard
      character 0xF000 below it, which is printable ASCII (0x20 to 0x7E);
      without a stored caption for that character the caption ends with the
      character's block name (for the generated table, "Basic Latin": see
      `BlockNameBasicLatin`). */
  lemma HoverCaptionKeyboard(ch: int, charCount: int, mswin: bool, captions: Option<map<int, string>>,
                             blockName: int -> Option<string>, formatComma: int -> string)
    requires 0xF020 <= ch < 0xF07F && charCount <= 256
    requires !(captions.Some? && ch - 0xF000 in captions.value) && blockName(ch - 0xF000).Some?
    ensures 0x20 <= ch - 0xF000 <= 0x7E
    ensures HoverCaption(ch, -1, false, charCount, mswin, captions, blockName, formatComma) ==
      UnicodeNotation(ch) + " =? " + (UnicodeNotation(ch - 0xF000) + " = " + blockName(ch - 0xF000).value)
  {
    var v := ch - 0xF000;
    assert CaptionWith(v, captions, blockName, formatComma) == UnicodeNotation(v) + " = " + blockName(v).value;
  }

  /** `s` ends with the Alt+ code of `v`. */
  predicate EndsWithAltCode(s: string, v: int) {
    |s| >= 8 && IsAltCode(s[|s| - 8..], v)
  }

  /** On Windows, a symbol-font character from 0xF07F on is captioned with
      the Alt+ code of its low byte (127 to 255). */
  lemma HoverCaptionWinalt(ch: int, charCount: int, captions: Option<map<int, string>>,
                           blockName: int -> Option<string>, formatComma: int -> string)
    requires 0xF07F <= ch <= 0xF0FF && charCount <= 256
    ensures 127 <= ch - 0xF000 <= 255
    ensures EndsWithAltCode(HoverCaption(ch, -1, false, charCount, true, captions, blockName, formatComma), ch - 0xF000)
  {
    var v := ch - 0xF000;
    var w := WinaltNotation(v);
    var head := UnicodeNotation(ch) + " =? " + (UnicodeNotation(v) + " = ");
    assert HoverCaption(ch, -1, false, charCount, true, captions, blockName, formatComma) == head + w by {
      assert UnicodeNotation(ch) + " =? " + (UnicodeNotation(v) + " = " + w) == head + w;
    }
    WinaltNotationShape(v);
    AltCodeSuffix(head, w, v);
  }

  /** A text that ends with an Alt+ code. */
  lemma AltCodeSuffix(head: string, w: string, v: int)
    requires IsAltCode(w, v)
    ensures EndsWithAltCode(head + w, v)
  {
    assert (head + w)[|head + w| - 8..] == w;
  }

  /** In glyph mode the caption starts with the glyph number, and a glyph
      that no character maps to says so and nothing more. */
  lemma HoverCaptionGlyph(ch: int, glyph: int, charCount: int, mswin: bool,
                          captions: Option<map<int, string>>, blockName: int -> Option<string>,
                          formatComma: int -> string)
    requires -1 <= ch <= MAX_CODE_POINT
    ensures var s := HoverCaption(ch, glyph, true, charCount, mswin, captions, blockName, formatComma);
      var head := "Glyph " + formatComma(glyph) + " = ";
      |head| <= |s| && s[..|head|] == head &&
      (ch < 0 ==> s == head + "no Unicode character mapping")
  {
    var s := HoverCaption(ch, glyph, true, charCount, mswin, captions, blockName, formatComma);
    var head := "Glyph " + formatComma(glyph) + " = ";
    var tail := if ch < 0 then "no Unicode character mapping" else "";
    var rest := s[|head + tail|..];
    assert s == head + tail + rest;
  }

  /** Whether a right-click menu item is enabled for a remembered cell. */
  predicate MenuEnabled(item: MenuItem, saved: Saved) {
    match item
    case CopyCaption => |saved.caption| > 0
    case CopyGlyph => saved.glyph >= 0
    case CopyNotation => saved.code >= 0
    case CopyNumber => saved.code >= 0
    case CopyText => saved.code >= 0
  }

  /** The right-click menu cases of `userButton`: each item copies one
      remembered value into the sample text, if there is one. */
  function RightMenuAction(item: MenuItem, saved: Saved, replace: bool): Action
    requires saved.code <= MAX_CODE_POINT
  {
    match item
    case CopyCaption => if |saved.caption| > 0 then EmitText(Encode(saved.caption), replace) else NoAction
    case CopyGlyph => if saved.glyph >= 0 then EmitText(Encode(IntToString(saved.glyph)), replace) else NoAction
    case CopyNotation => if saved.code >= 0 then EmitText(Encode(UnicodeNotation(saved.code)), replace) else NoAction
    case CopyNumber => if saved.code >= 0 then EmitText(Encode(IntToString(saved.code)), replace) else NoAction
    case CopyText => if saved.code >= 0 then EmitText(CharToString(saved.code), replace) else NoAction
  }

  /** An item does something exactly when it is enabled, and what it copies
      reads back as the remembered value: the caption itself, a number that
      parses back, a notation whose digits are the character number, or the
      character. */
  lemma RightMenuSpec(item: MenuItem, saved: Saved, replace: bool)
    requires saved.code <= MAX_CODE_POINT && IsJavaInt(saved.glyph)
    ensures var a := RightMenuAction(item, saved, replace);
      (a.EmitText? <==> MenuEnabled(item, saved)) && !a.ShowMenu? &&
      (a.EmitText? ==>
         a.replace == replace &&
         (match item
        case CopyCaption => Decode(a.text) == Some(saved.caption)
        case CopyGlyph =>
          exists t :: Decode(a.text) == Some(t) && ParseInt(t) == Some(saved.glyph)
        case CopyNotation =>
          exists t :: Decode(a.text) == Some(t) && |t| >= 6 && t[..2] == "U+" &&
            (forall i | 2 <= i < |t| :: IsHexDigit(t[i])) && HexValue(t[2..]) == saved.code
        case CopyNumber =>
          exists t :: Decode(a.text) == Some(t) && ParseInt(t) == Some(saved.code)
        case CopyText => DecodeOne(a.text) == Some(saved.code)))
  {
    var a := RightMenuAction(item, saved, replace);
    if a.EmitText? {
      match item
      case CopyCaption =>
        EncodeRoundTrip(saved.caption);
      case CopyGlyph =>
        EncodeRoundTrip(IntToString(saved.glyph));
        IntToStringRoundTrip(saved.glyph);
      case CopyNotation =>
        EncodeRoundTrip(UnicodeNotation(saved.code));
        UnicodeNotationShape(saved.code);
      case CopyNumber =>
        EncodeRoundTrip(IntToString(saved.code));
        IntToStringRoundTrip(saved.code);
      case CopyText =>
        CharToStringRoundTrip(saved.code);
    }
  }

  class CharMapGrid {
    /** `CharMap4.MAX_UNICODE`, the last code point enumerated. */
    const maxUnicode: int
    /** The locale's digit-grouping formatter (`CharMap4.formatComma`). */
    const formatComma: int -> string
    /** Running on Windows (`CharMap4.mswinFlag`). */
    const mswin: bool
    /** Each click replaces the sample text (`CharMap4.clickReplace`). */
    const clickReplace: bool
    /** The block lookup of `captionGet`, the generated table's. */
    const blockName: int -> Option<string>
    /** `CharMap4.gridScroll`. */
    const scroll: ScrollBar

    var clickIndex: CellRef
    var clickStartX: int
    var clickStartY: int
    var cornerIndex: int
    var hoverIndex: CellRef
    var panelColumns: int
    var panelCount: int
    var panelFont: Option<FontKey>
    var panelHeight: int
    var panelWidth: int
    var panelRows: int
    /** `lineAscent`, `lineHeight`, `maxWidth`, `horizStep`, `vertiStep`. */
    var metrics: Metrics

    /** The cells shown: the character table or the glyph table. */
    var cells: Table
    /** The displayable characters of the font, in order, with their glyphs. */
    var charTable: Table
    /** The font's glyphs, with the first character of each. */
    var glyphTable: Table

    /** `CharMap4.glyphFlag`: showing raw glyphs rather than characters. */
    var glyphFlag: bool
    /** The text of `CharMap4.statusDialog`, the mouse caption line. */
    var status: string
    /** `CharMap4.captionMap`, once the loader has published it. */
    var captions: Option<map<int, string>>
    /** `CharMap4.rightSaveCaption`, `rightSaveChar`, `rightSaveGlyph`. */
    var rightSave: Saved

    /** The character numbers in a table lie between `lo` and the last
        code point enumerated. */
    predicate CharsInRange(a: seq<int>, lo: int) {
      forall i | 0 <= i < |a| :: lo <= a[i] <= maxUnicode
    }

    function CurrentLayout(): Layout
      reads this`metrics, this`panelColumns, this`cornerIndex, this`cells
    {
      Layout(metrics.horizStep, metrics.vertiStep, panelColumns, cornerIndex, cells.Count())
    }

    /** The grid's invariant: the parts below, each reading only the state
        it constrains. */
    predicate Valid()
      reads this, scroll
    {
      MIN_UNICODE <= maxUnicode <= MAX_CODE_POINT &&
      ValidScroll() && ValidLayout() && ValidTables() && ValidFont()
    }

    /** The scroll bar counts rows from zero. */
    predicate ValidScroll()
      reads scroll
    {
      scroll.Valid() && scroll.minimum == 0
    }

    /** Cells are at least a text margin and a grid line apart, there is a
        column and a row, and the top-left cell exists. */
    predicate ValidLayout()
      reads this`metrics, this`panelColumns, this`cornerIndex, this`cells, this`panelRows
    {
      LayoutValid(CurrentLayout()) && panelRows >= 1
    }

    /** Each table's count is the length of its two arrays. */
    predicate ValidTables()
      reads this`cells, this`charTable, this`glyphTable
    {
      cells.Valid() && charTable.Valid() && glyphTable.Valid()
    }

    /** Once a font is painted, the steps come from its metrics and it has
        characters and glyphs to show. */
    predicate ValidFont()
      reads this`panelFont, this`metrics, this`charTable, this`glyphTable
    {
      panelFont.Some? ==> metrics.FromFont() && charTable.Count() > 0 && glyphTable.Count() > 0
    }

    /** The top-left cell is the first cell of the scroll bar's row. */
    predicate Aligned()
      reads this, scroll
    {
      cornerIndex == scroll.value * panelColumns
    }

    /** The grid before its first paint, and its scroll bar as created by
        `new JScrollBar(JScrollBar.VERTICAL, 0, 1, 0, 1)`. */
    constructor (maxUnicode: int, formatComma: int -> string, mswin: bool, clickReplace: bool)
      requires MIN_UNICODE <= maxUnicode <= MAX_CODE_POINT
      ensures Valid() && fresh(scroll)
      ensures this.maxUnicode == maxUnicode && this.formatComma == formatComma
      ensures this.mswin == mswin && this.clickReplace == clickReplace && blockName == BlockName
      ensures cells == charTable == glyphTable == Table([], [])
      ensures clickIndex == NO_MOUSE && clickStartX == NO_MOUSE && clickStartY == NO_MOUSE
      ensures cornerIndex == 0 && hoverIndex == NO_MOUSE && panelFont.None?
      ensures metrics == Metrics(100, 100, 100, 100, 100)
      ensures panelColumns == 10 && panelRows == 10 && panelCount == -1 && panelHeight == -1 && panelWidth == -1
      ensures scroll.value == 0 && scroll.extent == 1 && scroll.minimum == 0 && scroll.maximum == 1
      ensures !glyphFlag && status == EMPTY_STATUS && captions.None? && rightSave == Saved("", 0, 0)
    {
      this.maxUnicode := maxUnicode;
      this.formatComma := formatComma;
      this.mswin := mswin;
      this.clickReplace := clickReplace;
      blockName := BlockName;
      scroll := new ScrollBar(0, 1, 0, 1);
      cells, charTable, glyphTable := Table([], []), Table([], []), Table([], []);
      clickIndex := NO_MOUSE;
      clickStartX, clickStartY := NO_MOUSE, NO_MOUSE;
      cornerIndex := 0;
      hoverIndex := NO_MOUSE;
      panelColumns := 10;
      panelCount := -1;
      panelFont := None;
      panelHeight, panelWidth := -1, -1;
      panelRows := 10;
      metrics := Metrics(100, 100, 100, 100, 100);
      glyphFlag := false;
      status := EMPTY_STATUS;
      captions := None;
      rightSave := Saved("", 0, 0);
    }

    // -------------------------------------------------------------------
    // Hit testing and placement

    /** `convertMouse`: the cell under the pixel `(x, y)`, or `NO_MOUSE`
        when nothing has been painted yet or the pixel is not inside the
        text box of a defined cell. */
    function ConvertMouse(x: int, y: int): (r: int)
      reads this, scroll
      requires Valid()
      ensures panelFont.None? ==> r == NO_MOUSE
      ensures r == NO_MOUSE || (cornerIndex <= r < cells.Count() && InTextBox(CurrentLayout(), r, x, y))
    {
      if panelFont.None? then NO_MOUSE
      else
        CellAtSpec(CurrentLayout(), x, y);
        CellAt(CurrentLayout(), x, y)
    }

    /** `paintGridCell` for a defined cell: where its border starts and the
        colours of its interior and glyph. */
    function PaintGridCell(index: int): CellPaint
      reads this, scroll
      requires Valid() && cornerIndex <= index
    {
      var (x, y) := CellOrigin(CurrentLayout(), index);
      CellPaint(index, x, y, CellFill(index, clickIndex, hoverIndex), CellInk(index, clickIndex))
    }

    /** A click anywhere in the text box of a drawn cell selects that cell:
        cell placement and hit testing are inverse to each other. */
    lemma PaintedCellIsHit(index: int, dx: int, dy: int)
      requires Valid() && panelFont.Some? && cornerIndex <= index < cells.Count()
      requires 0 <= dx <= metrics.maxWidth && 0 <= dy <= metrics.lineHeight
      ensures var c := PaintGridCell(index);
        ConvertMouse(c.x + GRID_WIDTH + TEXT_MARGIN + dx, c.y + GRID_WIDTH + TEXT_MARGIN + dy) == index
    {
      var c := PaintGridCell(index);
      TextBoxSelectsCell(CurrentLayout(), index, c.x + GRID_WIDTH + TEXT_MARGIN + dx, c.y + GRID_WIDTH + TEXT_MARGIN + dy);
    }

    // -------------------------------------------------------------------
    // Mouse state machine

    /** `mousePressed`: a press on a cell highlights it as both the clicked
        and the hovered cell and records where the press started; a press
        elsewhere clears both highlights. */
    method MousePressed(x: int, y: int)
      requires Valid()
      modifies this`clickIndex, this`hoverIndex, this`clickStartX, this`clickStartY
      ensures Valid()
      ensures var index := old(ConvertMouse(x, y));
        if index >= 0 then
          clickIndex == index && hoverIndex == index && clickStartX == x && clickStartY == y
        else
          clickIndex == NO_MOUSE && hoverIndex == NO_MOUSE && clickStartX == NO_MOUSE && clickStartY == NO_MOUSE
    {
      var index := ConvertMouse(x, y);
      if index >= 0 {
        clickIndex, hoverIndex, clickStartX, clickStartY := index, index, x, y;
      } else {
        clickIndex, hoverIndex, clickStartX, clickStartY := NO_MOUSE, NO_MOUSE, NO_MOUSE, NO_MOUSE;
      }
    }

    /** `mouseMoved` (and `mouseDragged`): the hovered cell follows the
        mouse, the caption line shows the new cell's caption (or goes blank
        off the cells), and moving off a pressed cell cancels the click. */
    method MouseMoved(x: int, y: int)
      requires Valid()
      modifies this`clickIndex, this`hoverIndex, this`status
      ensures Valid()
      ensures hoverIndex == old(ConvertMouse(x, y))
      ensures clickIndex == (if old(clickIndex) >= 0 && old(clickIndex) != hoverIndex then NO_MOUSE else old(clickIndex))
      ensures hoverIndex < 0 ==> status == EMPTY_STATUS
      ensures hoverIndex >= 0 && hoverIndex != old(hoverIndex) ==> status == CellCaption(hoverIndex)
      ensures hoverIndex >= 0 && hoverIndex == old(hoverIndex) ==> status == old(status)
    {
      var index := ConvertMouse(x, y);
      var caption := if 0 <= index && index != hoverIndex then CellCaption(index) else EMPTY_STATUS;
      HoverTo(index, caption);
    }

    /** The mouse caption of a defined cell. */
    function CellCaption(index: int): string
      reads this, scroll
      requires Valid() && 0 <= index < cells.Count()
    {
      HoverCaption(cells.chars[index], cells.glyphs[index], glyphFlag, charTable.Count(), mswin, captions, blockName, formatComma)
    }

    /** The part of `mouseMoved` after the hit test: `index` is the cell
        under the mouse, or `NO_MOUSE`, and `caption` its mouse caption when
        it is a cell other than the hovered one. */
    method HoverTo(index: int, caption: string)
      requires Valid() && (index == NO_MOUSE || cornerIndex <= index < cells.Count())
      modifies this`clickIndex, this`hoverIndex, this`status
      ensures Valid()
      ensures hoverIndex == index
      ensures clickIndex == (if old(clickIndex) >= 0 && old(clickIndex) != index then NO_MOUSE else old(clickIndex))
      ensures index < 0 ==> status == EMPTY_STATUS
      ensures index >= 0 && index != old(hoverIndex) ==> status == caption
      ensures index >= 0 && index == old(hoverIndex) ==> status == old(status)
    {
      var text := status;
      if index < 0 {
        text := EMPTY_STATUS;
      } else if hoverIndex != index {
        text := caption;
      }
      var click := if clickIndex >= 0 && clickIndex != index then NO_MOUSE else clickIndex;
      clickIndex, hoverIndex, status := click, index, text;
    }

    /** A release commits the click begun by the last press: the mouse is on
        a cell, it is the pressed cell, and it has drifted at most
        `MOUSE_DRIFT` pixels in each direction. */
    predicate Commits(x: int, y: int)
      reads this, scroll
      requires Valid()
    {
      var index := ConvertMouse(x, y);
      index >= 0 && clickIndex == index &&
      Abs(clickStartX - x) <= MOUSE_DRIFT && Abs(clickStartY - y) <= MOUSE_DRIFT
    }

    /** `mouseReleased`: a committed click with a secondary button or a
        modifier key remembers the cell and opens the menu; a committed plain
        primary click emits the cell's character, if it has one. Either way
        the click ends and the hovered cell is the one under the mouse. */
    method MouseReleased(x: int, y: int, button: Button, modified: bool) returns (action: Action)
      requires Valid()
      modifies this`clickIndex, this`clickStartX, this`clickStartY, this`hoverIndex, this`rightSave
      ensures Valid()
      ensures clickIndex == NO_MOUSE && clickStartX == NO_MOUSE && clickStartY == NO_MOUSE
      ensures hoverIndex == old(ConvertMouse(x, y))
      ensures action.ShowMenu? <==> old(Commits(x, y)) && (button == Secondary || modified)
      ensures action.ShowMenu? ==>
        action.saved == rightSave == Saved(old(status), cells.chars[hoverIndex], cells.glyphs[hoverIndex])
      ensures !action.ShowMenu? ==> rightSave == old(rightSave)
      ensures action.EmitText? <==>
        old(Commits(x, y)) && button == Primary && !modified && cells.chars[hoverIndex] >= 0
      ensures action.EmitText? ==>
        action.replace == clickReplace && DecodeOne(action.text) == Some(cells.chars[hoverIndex])
    {
      var index := ConvertMouse(x, y);
      action := NoAction;
      var saved := rightSave;
      if index >= 0 && clickIndex == index && Abs(clickStartX - x) <= MOUSE_DRIFT && Abs(clickStartY - y) <= MOUSE_DRIFT {
        if button != Primary || modified {
          saved := Saved(status, cells.chars[index], cells.glyphs[index]);
          action := ShowMenu(saved);
        } else if cells.chars[index] >= 0 {
          CharToStringRoundTrip(cells.chars[index]);
          action := EmitText(CharToString(cells.chars[index]), clickReplace);
        }
      }
      clickIndex, clickStartX, clickStartY, hoverIndex, rightSave := NO_MOUSE, NO_MOUSE, NO_MOUSE, index, saved;
    }

    /** The right-click menu items of `userButton`, acting on the cell that
        the last menu-opening click remembered. */
    method RightMenu(item: MenuItem) returns (action: Action)
      requires Valid() && rightSave.code <= MAX_CODE_POINT
      ensures action == RightMenuAction(item, rightSave, clickReplace)
    {
      action := RightMenuAction(item, rightSave, clickReplace);
    }

    /** The Characters and Glyphs menu items: switch what the cells show,
        drop both highlights and return to the first cell. */
    method SelectMode(showGlyphs: bool)
      requires Valid()
      modifies this`glyphFlag, this`clickIndex, this`hoverIndex, this`cornerIndex
      ensures Valid()
      ensures glyphFlag == showGlyphs && clickIndex == NO_MOUSE && hoverIndex == NO_MOUSE && cornerIndex == 0
    {
      glyphFlag := showGlyphs;
      clickIndex, hoverIndex := NO_MOUSE, NO_MOUSE;
      cornerIndex := 0;
    }

    // -------------------------------------------------------------------
    // Scrolling

    /** `stateChanged`: once a font has been painted, the top-left cell
        follows the scroll bar's row. */
    method StateChanged()
      requires Valid()
      modifies this`cornerIndex
      ensures Valid()
      ensures cornerIndex == (if panelFont.Some? then scroll.value * panelColumns else old(cornerIndex))
      ensures panelFont.Some? ==> Aligned()
    {
      if panelFont.Some? {
        var newCorner := scroll.value * panelColumns;
        if newCorner != cornerIndex {
          cornerIndex := newCorner;
        }
      }
    }

    /** The keyboard commands of `userKey`, which move the scroll bar as its
        own arrows and track would: to the end, to the start, one row, or
        one page. */
    method UserKey(command: KeyCommand)
      requires Valid()
      modifies this`cornerIndex, scroll
      ensures Valid()
      ensures scroll.extent == old(scroll.extent) && scroll.minimum == 0 && scroll.maximum == old(scroll.maximum)
      ensures scroll.blockIncrement == old(scroll.blockIncrement) && scroll.unitIncrement == old(scroll.unitIncrement)
      ensures scroll.value == Max(0, Min(KeyTarget(command, old(scroll.value), old(scroll.blockIncrement), 0, scroll.maximum),
                                         scroll.maximum - scroll.extent))
      ensures command == GotoHome ==> scroll.value == 0
      ensures command == GotoEnd ==> scroll.value == scroll.maximum - scroll.extent
      ensures cornerIndex == (if panelFont.Some? && scroll.value != old(scroll.value) then scroll.value * panelColumns
                              else old(cornerIndex))
      ensures old(Aligned()) && panelFont.Some? ==> Aligned()
    {
      var changed := scroll.SetValue(KeyTarget(command, scroll.value, scroll.blockIncrement, scroll.minimum, scroll.maximum));
      if changed {
        StateChanged();
      }
    }

    /** `mouseWheelMoved`: a block-scrolling wheel moves by whole pages, a
        unit-scrolling one by its own amount limited to a page; other kinds
        of event are ignored. */
    method MouseWheelMoved(kind: WheelScroll, rotation: int, units: int)
      requires Valid()
      modifies this`cornerIndex, scroll
      ensures Valid()
      ensures scroll.extent == old(scroll.extent) && scroll.minimum == 0 && scroll.maximum == old(scroll.maximum)
      ensures scroll.blockIncrement == old(scroll.blockIncrement) && scroll.unitIncrement == old(scroll.unitIncrement)
      ensures kind == OtherScroll ==> scroll.value == old(scroll.value) && cornerIndex == old(cornerIndex)
      ensures kind == BlockScroll ==>
        scroll.value == Max(0, Min(old(scroll.value) + rotation * old(scroll.blockIncrement), scroll.maximum - scroll.extent))
      ensures kind == UnitScroll ==>
        scroll.value == Max(0, Min(old(scroll.value) + WheelRows(old(scroll.blockIncrement), units), scroll.maximum - scroll.extent))
      ensures cornerIndex == (if panelFont.Some? && scroll.value != old(scroll.value) then scroll.value * panelColumns
                              else old(cornerIndex))
    {
      var changed := false;
      match kind {
        case BlockScroll =>
          changed := scroll.SetValue(scroll.value + rotation * scroll.blockIncrement);
        case UnitScroll =>
          changed := scroll.SetValue(scroll.value + WheelRows(scroll.blockIncrement, units));
        case OtherScroll =>
      }
      if changed {
        StateChanged();
      }
    }

    // -------------------------------------------------------------------
    // Painting

    /** `paintComponent`: nothing is drawn without a display font; a new
        font is taken in first, and refused (with nothing drawn) when it
        has no character or no glyph to show; then the cells of the display
        mode are laid out for the panel's size and drawn. `face` is what
        the font reports about itself. */
    method PaintComponent(displayFont: Option<FontKey>, face: FontFace, width: int, height: int)
      returns (painted: seq<CellPaint>)
      requires Valid() && face.numGlyphs <= MAX_INT
      modifies this`clickIndex, this`hoverIndex, this`cornerIndex, this`status, this`panelFont
      modifies this`metrics, this`charTable, this`glyphTable, this`cells
      modifies this`panelWidth, this`panelHeight, this`panelColumns, this`panelRows, this`panelCount, scroll
      ensures Valid()
      ensures displayFont.None? ==> painted == [] && unchanged(this) && unchanged(scroll)
      ensures displayFont.Some? && displayFont != old(panelFont) ==>
                DescribesFont(face) && status == InventoryStatus() &&
                clickIndex == NO_MOUSE && hoverIndex == NO_MOUSE &&
                (panelFont.None? <==> charTable.Count() == 0 || glyphTable.Count() == 0)
      ensures displayFont.Some? && displayFont == old(panelFont) ==>
                charTable == old(charTable) && glyphTable == old(glyphTable) && metrics == old(metrics)
      ensures displayFont.Some? && panelFont.None? ==> painted == []
      ensures displayFont.Some? && panelFont.Some? ==>
                panelFont == displayFont && Selected() &&
                panelWidth == width && panelHeight == height &&
                painted == DrawnCells(cornerIndex, LastDrawn())
    {
      painted := [];
      if displayFont.None? {
        return;
      }
      var redo := false;
      if displayFont != panelFont {
        var ok := RefreshFont(displayFont.value, face);
        if !ok {
          return;
        }
        redo := true;
      }
      painted := PaintGrid(width, height, redo);
    }

    /** The part of `paintComponent` once a font is in place: select the
        cells, lay them out, draw them. */
    method PaintGrid(width: int, height: int, redo: bool) returns (painted: seq<CellPaint>)
      requires Valid() && panelFont.Some?
      modifies this`cells, this`panelWidth, this`panelHeight, this`panelColumns, this`panelRows
      modifies this`panelCount, this`cornerIndex, scroll
      ensures Valid() && Selected() && panelWidth == width && panelHeight == height
      ensures painted == DrawnCells(cornerIndex, LastDrawn())
    {
      SelectCells();
      Relayout(width, height, redo);
      painted := PaintCells();
    }

    /** The tables and metrics describe `face`: the character table lists
        its displayable code points in order with their first glyphs, and
        the glyph table gives each glyph's first code point. */
    predicate DescribesFont(face: FontFace)
      reads this
    {
      metrics == FontMetrics(face.ascent, face.height, MaxWidth(face.maxAdvance)) &&
      MIN_UNICODE <= maxUnicode <= MAX_CODE_POINT &&
      IsInventory(face, maxUnicode, charTable.chars, charTable.glyphs, glyphTable.chars, glyphTable.glyphs)
    }

    /** The inventory message that `paintComponent` puts on the caption
        line after a font change. */
    function InventoryStatus(): string
      reads this
    {
      formatComma(charTable.Count()) + " characters with " + formatComma(glyphTable.Count()) + " glyphs"
    }

    /** The font-change branch of `paintComponent`: drop the highlights,
        go back to the first cell, take the new metrics and rebuild the
        inventory. A font with no displayable character or no glyph is
        refused, and the grid stays without a font. */
    method RefreshFont(key: FontKey, face: FontFace) returns (ok: bool)
      requires Valid() && face.numGlyphs <= MAX_INT
      modifies this`clickIndex, this`hoverIndex, this`cornerIndex, this`status, this`panelFont
      modifies this`metrics, this`charTable, this`glyphTable
      ensures Valid() && DescribesFont(face) && status == InventoryStatus()
      ensures ok <==> charTable.Count() > 0 && glyphTable.Count() > 0
      ensures panelFont == (if ok then Some(key) else None)
      ensures clickIndex == NO_MOUSE && hoverIndex == NO_MOUSE && cornerIndex == 0
    {
      var cc, cg, gc, gg := BuildInventory(face, maxUnicode);
      var chars, charGlyphs, glyphChars, glyphs := cc[..], cg[..], gc[..], gg[..];
      InventoryInRange(face, chars, glyphChars);
      ok := |chars| > 0 && |glyphChars| > 0;
      Install(if ok then Some(key) else None, face.ascent, face.height, MaxWidth(face.maxAdvance),
              Table(chars, charGlyphs), Table(glyphChars, glyphs));
    }

    /** The assignments of the font-change branch of `paintComponent`:
        the highlights go, the grid returns to its first cell, takes the new
        metrics and tables, and keeps the font only when it has both
        characters and glyphs to show. */
    method Install(font: Option<FontKey>, ascent: int, height: int, width: int, chars: Table, glyphs: Table)
      requires Valid() && width >= 10 && height >= 0 && chars.Valid() && glyphs.Valid()
      requires font.Some? ==> chars.Count() > 0 && glyphs.Count() > 0
      modifies this`clickIndex, this`hoverIndex, this`cornerIndex, this`panelFont, this`status
      modifies this`metrics, this`charTable, this`glyphTable
      ensures Valid() && panelFont == font && status == InventoryStatus()
      ensures clickIndex == NO_MOUSE && hoverIndex == NO_MOUSE && cornerIndex == 0
      ensures metrics == FontMetrics(ascent, height, width)
      ensures charTable == chars && glyphTable == glyphs
    {
      clickIndex, hoverIndex, cornerIndex, panelFont := NO_MOUSE, NO_MOUSE, 0, font;
      metrics := FontMetrics(ascent, height, width);
      charTable, glyphTable := chars, glyphs;
      status := InventoryStatus();
    }

    /** The tables built for a font hold only code points of the enumerated
        range, and `charChar` only real ones. */
    lemma InventoryInRange(face: FontFace, cc: seq<int>, gc: seq<int>)
      requires MIN_UNICODE <= maxUnicode <= MAX_CODE_POINT
      requires cc == Displayables(face, MIN_UNICODE, maxUnicode + 1)
      requires forall g | 0 <= g < |gc| :: gc[g] == FirstCharOf(face, g, MIN_UNICODE, maxUnicode + 1)
      ensures CharsInRange(cc, 0) && CharsInRange(gc, -1) && |cc| <= maxUnicode + 1
    {
      DisplayablesSpec(face, MIN_UNICODE, maxUnicode + 1);
      DisplayablesLength(face, MIN_UNICODE, maxUnicode + 1);
      forall g | 0 <= g < |gc|
        ensures -1 <= gc[g] <= maxUnicode
      {
        FirstCharOfSpec(face, g, MIN_UNICODE, maxUnicode + 1);
      }
    }

    /** The cells are the characters' tables or the glyphs' tables,
        according to the display mode. */
    predicate Selected()
      reads this
    {
      cells == if glyphFlag then glyphTable else charTable
    }

    /** The cell selection of `paintComponent`. */
    method SelectCells()
      requires Valid()
      modifies this`cells
      ensures Valid() && Selected()
    {
      cells := if glyphFlag then glyphTable else charTable;
    }

    /** The column, row and scroll-bar part of `paintComponent`. Columns
        (rows) are recounted when the font is new or the width (height)
        changed; when anything changed, the scroll bar gets the new range,
        with the row clamp corrected so that no blank row is left at the
        end, and the top-left cell is the first cell of the scroll row. */
    method Relayout(width: int, height: int, redo: bool)
      requires Valid() && panelFont.Some?
      modifies this`panelWidth, this`panelHeight, this`panelColumns, this`panelRows, this`panelCount
      modifies this`cornerIndex, scroll
      ensures Valid()
      ensures panelWidth == width && panelHeight == height
      ensures panelColumns == (if redo || width != old(panelWidth) then Fit(width, metrics.horizStep) else old(panelColumns))
      ensures panelRows == (if redo || height != old(panelHeight) then Fit(height, metrics.vertiStep) else old(panelRows))
      ensures var again := redo || width != old(panelWidth) || height != old(panelHeight) || cells.Count() != old(panelCount);
        (again ==>
           panelCount == cells.Count() &&
           scroll.value == ScrollRow(old(cornerIndex), cells.Count(), panelColumns, panelRows) &&
           scroll.minimum == 0 && scroll.maximum == TotalRows(cells.Count(), panelColumns) &&
           scroll.extent == Max(0, Min(panelRows, scroll.maximum - scroll.value)) &&
           scroll.blockIncrement == PageRows(panelRows) && scroll.unitIncrement == 1 && Aligned()) &&
        (!again ==> panelCount == old(panelCount) && cornerIndex == old(cornerIndex) && unchanged(scroll))
    {
      var again := redo;
      if redo || width != panelWidth {
        panelWidth := width;
        again := true;
        panelColumns := Fit(width, metrics.horizStep);
      }
      if redo || height != panelHeight {
        panelHeight := height;
        again := true;
        panelRows := Fit(height, metrics.vertiStep);
      }
      if cells.Count() != panelCount || again {
        ResetScroll();
      }
    }

    /** The scroll-bar part of `paintComponent` once the panel or the cell
        count changed: the scroll bar covers every row, shows a page of
        them, and sits on the row of the old top-left cell, clamped so that
        the last page is full; the top-left cell follows. */
    method ResetScroll()
      requires Valid() && panelFont.Some?
      modifies this`panelCount, this`cornerIndex, scroll
      ensures Valid() && Aligned() && panelCount == cells.Count()
      ensures scroll.value == ScrollRow(old(cornerIndex), cells.Count(), panelColumns, panelRows)
      ensures scroll.minimum == 0 && scroll.maximum == TotalRows(cells.Count(), panelColumns)
      ensures scroll.extent == Max(0, Min(panelRows, scroll.maximum - scroll.value))
      ensures scroll.blockIncrement == PageRows(panelRows) && scroll.unitIncrement == 1
    {
      var row := ScrollRow(cornerIndex, cells.Count(), panelColumns, panelRows);
      var total := TotalRows(cells.Count(), panelColumns);
      ScrollRowSpec(cornerIndex, cells.Count(), panelColumns, panelRows);
      TotalRowsBound(cells.Count(), panelColumns);
      var _ := scroll.SetValues(row, panelRows, 0, total);
      scroll.SetBlockIncrement(PageRows(panelRows));
      scroll.SetUnitIncrement(1);
      panelCount, cornerIndex := cells.Count(), scroll.value * panelColumns;
    }

    /** The cells `paintComponent` draws from `first` to `last`: every
        defined one, in order. */
    function DrawnCells(first: int, last: int): seq<CellPaint>
      reads this, scroll
      requires Valid() && cornerIndex <= first
      decreases last - first
    {
      if last < first then []
      else DrawnCells(first, last - 1) + (if last < cells.Count() then [PaintGridCell(last)] else [])
    }

    /** The drawing loop of `paintComponent`: every cell index from the
        top-left corner to the end of the partial row below the last full
        row, skipping those past the last cell. */
    method PaintCells() returns (painted: seq<CellPaint>)
      requires Valid()
      ensures painted == DrawnCells(cornerIndex, LastDrawn())
    {
      var last := cornerIndex + panelColumns * (panelRows + 1) - 1;
      painted := [];
      var i := cornerIndex;
      while i <= last
        invariant cornerIndex <= i && (i <= last + 1 || i == cornerIndex)
        invariant painted == DrawnCells(cornerIndex, i - 1)
      {
        if i < cells.Count() {
          painted := painted + [PaintGridCell(i)];
        }
        i := i + 1;
      }
    }

    /** `end` in `paintComponent`: the last index of the partial row. */
    function LastDrawn(): int
      reads this
    {
      cornerIndex + panelColumns * (panelRows + 1) - 1
    }
  }

  /** The value a key command asks of the scroll bar, before the scroll bar
      clamps it into range. */
  function KeyTarget(command: KeyCommand, value: int, block: int, minimum: int, maximum: int): int {
    match command
    case GotoEnd => maximum
    case GotoHome => minimum
    case LineDown => value + 1
    case LineUp => value - 1
    case PageDown => value + block
    case PageUp => value - block
  }
}
