# CharMap4 and its caption generators, modelled in Dafny

CharMap4 is a Java Swing program that shows every character of a font as a
grid of cells. The mouse hovers over a cell to see its caption, clicks it to
insert the character into a text area, or right-clicks it for a menu that
copies the caption, glyph number, notation, decimal number or text. Captions
come from a configuration file of `U+XXXX = caption` lines. When a character
has no caption the viewer falls back to the name of its Unicode block, and
when no block holds it to its decimal number. Two small generators write the
data the viewer uses:

- `CharMapParse6` reads `UnicodeData.txt` and the Unihan readings and
  variants. It builds a caption for every character and writes the
  configuration file. The Korean Hangul syllables get generated names and
  sounds. The CJK ideographs get their readings, tagged by language, and
  their variants.
- `CharMapParse1` reads `Blocks.txt` and writes the Java `else if` chain of
  block ranges that `captionGet` holds.

The model is one Dafny module per concern:

- `JavaLang`: the Java library behaviour the programs rely on. This covers
  `int`, division truncated toward zero, `Integer.toHexString` and
  `parseInt`, `String.trim`, ASCII case mapping and regex character classes.
- `Utf16`: Java strings as UTF-16 code units, and `charToString`.
- `Notation`: `unicodeNotation` and `winaltNotation`.
- `Captions`: `captionGet` and the block table.
- `Inventory`: the font inventory loops of `paintComponent`.
- `Geometry`: cell placement, hit testing, colours and the scroll clamp.
- `ScrollBars`: the scroll bar the grid drives.
- `Grid`: the grid panel, a class holding the mouse state machine, the hover
  caption, the right-click menu, `userKey`, the mouse wheel and painting.
- `Config`: `setPointSize` and `loadConfig`'s classification of lines.
- `UniData`, `Hangul`, `PlainText`, `LexOrder`, `Cjk`, `Maps` and
  `Generator`: `CharMapParse6`.
- `Handoff`: the generator's output file as the viewer loads it.
- `Blocks`: `CharMapParse1`.

Methods are kept where the source updates state step by step. The grid panel,
the scroll bar, the CJK word lists and the caption map are classes. The
inventory is built in arrays, and `checkPlainText`, `titleCase`, the caption
assembly and both output loops are loops. Each method is proved against a
function. The lemmas state what the source promises about that function.

## Model

| member | source | states |
|---|---|---|
| JavaLang.JRem | CharMap4.java:2345-2347 | Java's `%` on `int`: with `JDiv` (quotient truncated toward zero) it recomposes the dividend |
| JavaLang.JavaDivision | CharMap4.java:2345-2347 | the remainder has the dividend's sign and is smaller than the divisor in magnitude; for a non-negative dividend Java's and Euclid's division agree |
| JavaLang.HexStringShape | CharMap4.java:2025 | `Integer.toHexString(..).toUpperCase()` of a non-negative number: at least one upper-case hex digit, no leading zero, and at most k digits exactly when the number is below 16^k |
| JavaLang.HexStringRoundTrip | CharMap4.java:2025 | the hex digits read back as the number |
| JavaLang.HexValueUpper | CharMapParse6.java:519-520 | upper-casing a hex numeral keeps every character a hex digit and keeps its value |
| JavaLang.DecStringRoundTrip | CharMap4.java:2216 | `Integer.toString` of a non-negative number: decimal digits that read back as the number, at most k of them exactly when the number is below 10^k |
| JavaLang.ParseInt | CharMap4.java:1958 | `Integer.parseInt` accepts only values that fit in a Java `int` |
| JavaLang.JavaDigit | CharMap4.java:1958 | `Character.digit(c, 10)`, which `parseInt` applies to each character: -1 or a value below ten, and the ASCII digits have their usual values |
| JavaLang.JavaDigitsAscii | CharMap4.java:1958 | on ASCII digits the digit values `parseInt` accumulates are the usual decimal value |
| JavaLang.IntToStringRoundTrip | CharMap4.java:1972 | `parseInt(String.valueOf(x)) == x` for every Java `int` |
| JavaLang.Trim | CharMapParse6.java:605 | `String.trim`: the result is no longer, and starts and ends above the space character |
| JavaLang.TrimSpec | CharMapParse6.java:605 | `String.trim` returns the slice of the input between a leading and a trailing run of characters up to U+0020, and is empty only when every character is one of them |
| JavaLang.CaseAbsorbs | CharMapParse6.java:654-660 | upper- and lower-casing absorb each other and change only ASCII letters |
| Utf16.CharToString | CharMap4.java:1395-1400 | `charToString` gives one code unit exactly for characters below U+10000, otherwise a high and a low surrogate |
| Utf16.CharToStringRoundTrip | CharMap4.java:1395-1400 | decoding the units of `charToString(v)` gives `v` back |
| Utf16.CharToStringInjective | CharMap4.java:1395-1400 | different characters give different strings |
| Utf16.EncodeRoundTrip | CharMap4.java:2085-2109 | a Java string seen as UTF-16 units decodes back to its characters |
| Utf16.EncodeAscii | CharMapParse6.java:175-182 | an ASCII string has one code unit per character, with the same value, so `value.length()` and `charAt` see its characters |
| Notation.PadFour | CharMap4.java:2026-2027 | left-pads with zeros to four characters and keeps the digits as its suffix |
| Notation.UnicodeNotationShape | CharMap4.java:2021-2031 | "U+" and upper-case hex digits, exactly four of them below U+10000 and no leading zero beyond four; the digits read back as the value |
| Notation.UnicodeNotationInjective | CharMapParse6.java:703-713 | different characters get different notations |
| Notation.WinaltNotationShape | CharMap4.java:2212-2222 | for codes up to 9999: "Alt+" and exactly four decimal digits whose value is the code |
| Captions.BlockTableAscending | CharMap4.java:702-1342 | the block ranges are non-empty, ascending and disjoint |
| Captions.BlockNameSpec | CharMap4.java:702-1342 | the if-chain finds a name exactly when some block holds the character, and then it is that block's name |
| Captions.BlockNameBasicLatin | CharMap4.java:702-703 | every character up to U+007F is in "Basic Latin" |
| Captions.CaptionWithSpec | CharMap4.java:667-1374 | the caption is the notation, " = ", then the stored caption, else the block name, else "decimal" and the formatted number |
| Captions.CaptionGetSpec | CharMap4.java:667-1374 | the same with the real block table: with no stored caption, the text after " = " is the name of the one block holding the character, or "decimal" and its number |
| Inventory.GlyphCount | CharMap4.java:2710 | no glyph slots exactly when the font reports no glyphs |
| Inventory.FirstGoodSpec | CharMap4.java:2739-2746 | the scan of a glyph vector finds -1 exactly when no code is a real glyph, else the first real one |
| Inventory.GlyphOfSpec | CharMap4.java:2725-2749 | a character's glyph is -1 or a real glyph; a displayable character is one the font can display, and its glyph comes from its vector |
| Inventory.DisplayablesSpec | CharMap4.java:2757-2769 | the compacted characters are strictly ascending, in range, and are exactly the displayable ones |
| Inventory.DisplayablesLength | CharMap4.java:2757-2769 | there are no more displayable characters than code points scanned |
| Inventory.FirstCharOfSpec | CharMap4.java:2739-2748 | `glyphChar[g]` is -1 exactly when no character uses glyph `g`, else the first character that does |
| Inventory.FirstCharDisplayed | CharMap4.java:2744-2769 | the first character of a glyph is one of the displayed characters |
| Inventory.BuildInventory | CharMap4.java:2697-2769 | the four fresh tables are the inventory: the displayable characters and their glyphs, and for each glyph its first character and itself |
| Inventory.ScanCodePoint | CharMap4.java:2722-2752 | scanning one code point sets its glyph and advances each glyph's first character by one code point, leaving the other entries unchanged |
| Inventory.Compact | CharMap4.java:2757-2769 | the compaction loop copies exactly the displayable characters, in order, with their glyphs |
| Geometry.MaxWidth | CharMap4.java:2688 | the cell width is the font's widest advance, but at least 10 |
| Geometry.FitSpec | CharMap4.java:2805-2825 | the number of columns (rows) is at least one, fits the panel when more than one, and one more would not fit |
| Geometry.CellAtSpec | CharMap4.java:2338-2369 | hit testing returns no cell, or a defined cell at or after the corner whose text box holds the point |
| Geometry.TextBoxSelectsCell | CharMap4.java:2338-2369 | every point inside a defined cell's text box hits that cell |
| Geometry.CellColoursSpec | CharMap4.java:2895-2906 | the clicked cell is black, the hovered one light grey, the rest white, and the ink always differs from the fill |
| Geometry.TotalRowsBound | CharMap4.java:2844 | the row count of the scroll bar is between 0 and the cell count |
| Geometry.ScrollRowAsWrittenLeavesBlankRow | CharMap4.java:2839-2840 | the clamp as written leaves the last visible row blank for 320 cells in 16 columns and 10 rows; the corrected clamp does not |
| Geometry.ScrollRowSpec | CharMap4.java:2837-2846 | the new scroll row is a valid value, never below the old corner, keeps the corner's row when that leaves no blank rows, and fills every visible row when there are enough rows |
| Geometry.PageRows | CharMap4.java:2849 | a page scrolls one row less than the panel shows, but at least one |
| Geometry.WheelRowsSpec | CharMap4.java:2625-2628 | a wheel notch moves in the wheel's direction, by its own amount when within a page, never by more than a page |
| ScrollBars.ScrollBar.constructor | CharMap4.java:527 | the scroll bar starts at the given value, extent and range, with a unit increment of one |
| ScrollBars.ScrollBar.SetValue | CharMap4.java:2158-2180 | `setValue` clamps to the range less the extent, changes nothing else, and reports whether the value moved |
| ScrollBars.ScrollBar.SetValues | CharMap4.java:2841-2844 | `setValues` keeps the value, widens the range to hold it and shrinks the extent to fit |
| ScrollBars.ScrollBar.SetBlockIncrement | CharMap4.java:2849 | sets the page increment and nothing else |
| ScrollBars.ScrollBar.SetUnitIncrement | CharMap4.java:2851 | sets the line increment and nothing else |
| Grid.FontMetrics | CharMap4.java:2685-2690 | the cell steps are the font's width and height plus the margins |
| Grid.HoverCaptionKeyboard | CharMap4.java:2438-2468 | a symbol-font character in U+F020..U+F07E is captioned "=?" and then as the keyboard character 0x20..0x7E |
| Grid.HoverCaptionWinalt | CharMap4.java:2446-2452 | on Windows an upper symbol-font character ends with the Alt+ code of its low byte |
| Grid.HoverCaptionGlyph | CharMap4.java:2424-2431 | in glyph mode the caption starts with "Glyph", the glyph number and " = ", and says so when the glyph maps to no character |
| Grid.RightMenuSpec | CharMap4.java:2085-2109 | each menu item is enabled exactly when it has something to copy, and the text it emits decodes to the caption, a number that parses back, a notation whose digits are the character, or the character |
| Grid.CharMapGrid.constructor | CharMap4.java:2285-2316 | the panel starts with no font, no highlight, a 10 by 10 layout and an empty scroll range |
| Grid.CharMapGrid.ConvertMouse | CharMap4.java:2338-2369 | with no font no cell is hit; otherwise the result is no cell or a defined cell whose text box holds the point |
| Grid.CharMapGrid.PaintedCellIsHit | CharMap4.java:2875-2883 | every point inside a painted cell's text box converts back to that cell |
| Grid.CharMapGrid.MousePressed | CharMap4.java:2492-2518 | a press on a cell highlights it as clicked and hovered and records where the press started; elsewhere it clears both |
| Grid.CharMapGrid.MouseMoved | CharMap4.java:2388-2490 | the hovered cell follows the mouse, a click elsewhere is cancelled, and the status shows the new cell's caption, or nothing off the grid |
| Grid.CharMapGrid.HoverTo | CharMap4.java:2405-2486 | the hover state machine for a given target cell and caption |
| Grid.CharMapGrid.MouseReleased | CharMap4.java:2520-2585 | a release near the press on the same cell commits: a secondary or modified click opens the menu with the status, character and glyph saved; a primary click emits the character; either way the click ends |
| Grid.CharMapGrid.RightMenu | CharMap4.java:2085-2109 | a menu choice acts on the saved cell as `RightMenuSpec` states |
| Grid.CharMapGrid.SelectMode | CharMap4.java:2057-2076 | switching between characters and glyphs clears both highlights and scrolls to the top |
| Grid.CharMapGrid.StateChanged | CharMap4.java:2936-2948 | with a font, the top-left cell follows the scroll bar row by row |
| Grid.CharMapGrid.UserKey | CharMap4.java:2150-2181 | Home, End, line and page keys move the scroll value to the clamped target, and the corner follows |
| Grid.CharMapGrid.MouseWheelMoved | CharMap4.java:2615-2635 | a block notch moves by pages, a unit notch by at most a page, other wheels do nothing; the corner follows the scroll bar |
| Grid.CharMapGrid.PaintComponent | CharMap4.java:2647-2860 | with no font nothing changes; a new font is inventoried and resets the highlights; then the cells are selected for the mode, laid out for the panel and the visible ones drawn |
| Grid.CharMapGrid.PaintGrid | CharMap4.java:2785-2860 | the layout matches the panel and the cells drawn are the visible ones from the corner |
| Grid.CharMapGrid.RefreshFont | CharMap4.java:2672-2782 | a new font takes the inventory of that font, resets highlights and scrolling, and stays selected only when it has characters and glyphs |
| Grid.CharMapGrid.Install | CharMap4.java:2672-2782 | installs the metrics and tables of a font and shows the inventory status |
| Grid.CharMapGrid.InventoryInRange | CharMap4.java:2697-2769 | the inventory's characters lie in the scanned range |
| Grid.CharMapGrid.SelectCells | CharMap4.java:2787-2798 | the cells shown are the character table or the glyph table, as the mode says |
| Grid.CharMapGrid.Relayout | CharMap4.java:2805-2851 | columns and rows are refitted when the panel size changes, and the scroll bar is reset when anything changed |
| Grid.CharMapGrid.ResetScroll | CharMap4.java:2834-2851 | the scroll bar takes the corrected row, the row count, the extent, a page increment and a unit increment of one, and the corner is aligned to it |
| Grid.CharMapGrid.PaintCells | CharMap4.java:2858-2860 | the cells drawn are those from the corner to the last visible one |
| Config.PointSize | CharMap4.java:1954-1980 | the size is always between 10 and 999: the parsed number when in range, else 30 |
| Config.PointSizeOtherScripts | CharMap4.java:1954-1958 | digits of other scripts are sizes too: fullwidth "１２" is 12 and Arabic-Indic "٤٢" is 42 |
| Config.PointSizeRoundTrip | CharMap4.java:1954-1980 | every size from 10 to 999 written out is accepted as itself |
| Config.MatchAssignment | CharMap4.java:1463-1464 | a match splits the text as `\s*=\s*(.*\S)\s*` does, so the caption starts and ends with a non-space |
| Config.MatchAssignmentComplete | CharMap4.java:1463-1464 | every text of that shape is matched, into its own parts |
| Config.MatchMouse | CharMap4.java:1463 | a match splits a line as the caption pattern `\s*[Uu]\+([0-9A-Fa-f]+)` plus an assignment does |
| Config.MatchMouseComplete | CharMap4.java:1463 | every caption line of that shape is matched, into its own parts |
| Config.MatchButton | CharMap4.java:1461 | a match splits a line as the label pattern `\s*(\w+)` plus an assignment does |
| Config.MatchButtonComplete | CharMap4.java:1461 | every label line of that shape is matched, into its own parts |
| Config.SettingNameWord | CharMap4.java:1511-1546 | every setting's name is a lower-case word |
| Config.SettingOfName | CharMap4.java:1511-1546 | looking up a setting's name finds that setting |
| Config.SettingOf | CharMap4.java:1511-1548 | a word names a setting only if it is that setting's name |
| Config.ClassifyLine | CharMap4.java:1482-1556 | a line is ignored exactly when it is blank or a comment; a caption line has a code point and caption text; a label line has caption text |
| Config.ClassifyCommand | CharMap4.java:1491-1556 | a command line is never ignored |
| Config.MouseCaption | CharMap4.java:1491-1499 | a caption line is accepted exactly when its number is a code point, and then it carries the captured caption |
| Config.ButtonCaption | CharMap4.java:1503-1549 | a label line is accepted exactly when its word, lower-cased, names a setting |
| Config.BlankOrCommentSpan | CharMap4.java:1482-1487 | blank or comment means the first non-whitespace character is `#` or absent |
| Config.CaptionLineRoundTrip | CharMap4.java:1491-1496 | the line `unicodeNotation(v) + " = " + caption` reads back as caption `caption` for `v` |
| Config.LabelLineRoundTrip | CharMap4.java:1503-1546 | a setting's name, " = " and a text reads back as that label |
| Config.NotMouseLine | CharMap4.java:1463 | a line starting with a lower-case letter other than `u` is not a caption line |
| Config.CommandLine | CharMap4.java:1486-1487 | a line that starts with neither whitespace nor `#` is classified as a command |
| Config.WithoutMark | CharMap4.java:1472-1475 | dropping the byte-order mark changes at most the first line |
| Config.LoadConfig | CharMap4.java:1477-1557 | the read loop applies every classified line in order |
| Config.LoadAllLastCaption | CharMap4.java:1382-1385 | the last line for a character sets its caption |
| Config.LoadAllCaptionSource | CharMap4.java:1491-1496 | every loaded caption comes from a caption line of the file |
| Hangul.Decompose | CharMapParse6.java:595-601 | a syllable splits into an initial, medial and final index that compose back to it |
| Hangul.DecomposeCompose | CharMapParse6.java:595-601 | every valid triple composes to a syllable that splits back into that triple |
| Hangul.Sound | CharMapParse6.java:606-607 | the sound of a syllable is never empty, so `charAt(0)` is safe |
| Hangul.MedialSoundsNonEmpty | CharMapParse6.java:100-102 | every medial has a sound |
| Hangul.TrimUntrimmed | CharMapParse6.java:605 | `trim` keeps a name that starts and ends with a letter, and drops one trailing space |
| Hangul.SyllableNameSpec | CharMapParse6.java:603-605 | the name is "Hangul Syllable" and the jamo names, with no trailing space when there is no final |
| Hangul.HangulCaptionSpec | CharMapParse6.java:603-609 | the caption is the name, " (", the first letter of the sound as it is, the rest of the sound in lower case, and ")" |
| PlainText.AccentBaseLetters | CharMapParse6.java:185-354 | every accented letter in the table maps to a small ASCII letter |
| PlainText.PlainUnits | CharMapParse6.java:176-361 | the text built from code units has one character per unit |
| PlainText.PlainTextOf | CharMapParse6.java:175-182 | the plain text of a Java string has one character for each of its UTF-16 code units |
| PlainText.CheckPlainText | CharMapParse6.java:167-364 | the loop over the `value.length()` code units computes the plain text of the value |
| PlainText.PlainTextSpec | CharMapParse6.java:176-361 | one character per code unit, all printable ASCII: printable units stay, known accented letters become their base letter, every other unit, a surrogate included, becomes `?` |
| PlainText.PlainTextSupplementary | CharMapParse6.java:175-182 | a character beyond U+FFFF is two surrogate units and becomes `??` |
| PlainText.PlainTextAscii | CharMapParse6.java:180-183 | printable ASCII text comes back unchanged |
| PlainText.PlainTextIdempotent | CharMapParse6.java:176-361 | plain text is left unchanged by a second pass |
| PlainText.Titled | CharMapParse6.java:645-661 | title case keeps the length |
| PlainText.TitleCase | CharMapParse6.java:635-664 | the loop computes the title case of the input |
| PlainText.TitledIgnoresCase | CharMapParse6.java:645-661 | the input's case does not matter |
| PlainText.TitledSameLetters | CharMapParse6.java:645-661 | inputs that differ only in case give the same result |
| PlainText.TitledIdempotent | CharMapParse6.java:645-661 | title case of title case is itself |
| LexOrder.LexIrreflexive | CharMapParse6.java:475 | `compareTo` order: no string is below itself |
| LexOrder.LexAsymmetric | CharMapParse6.java:475 | no two strings are each below the other |
| LexOrder.LexTransitive | CharMapParse6.java:475 | the order is transitive |
| LexOrder.LexTotal | CharMapParse6.java:475 | any two different strings are ordered |
| LexOrder.TagOrder | CharMapParse6.java:486-493 | entries are ordered first by their two-character tag |
| LexOrder.Insert | CharMapParse6.java:475 | insertion adds exactly the one word |
| LexOrder.InsertSorted | CharMapParse6.java:475 | insertion keeps a list sorted |
| LexOrder.SortWords | CharMapParse6.java:475 | `Collections.sort` gives a sorted permutation |
| LexOrder.SortedUnique | CharMapParse6.java:475 | there is only one sorted permutation, so the caption does not depend on input order |
| Cjk.ReadingTag | CharMapParse6.java:412-441 | the fields of interest map to the six language tags |
| Cjk.TagsOrdered | CharMapParse6.java:69 | every language tag is two characters and sorts before the variant tag |
| Cjk.Words | CharMapParse6.java:563-575 | the words found are non-empty runs of ASCII letters |
| Cjk.WordsSplit | CharMapParse6.java:563-575 | a non-letter separates words |
| Cjk.Codes | CharMapParse6.java:510-531 | every notation found has one to six hex digits |
| Cjk.CodesOf | CharMapParse6.java:395 | `U+` and a maximal run of at most six hex digits is one notation |
| Cjk.ReadingEntryShape | CharMapParse6.java:572-573 | a reading entry is the tag and the word with a capital first letter and the rest in lower case |
| Cjk.VariantEntryShape | CharMapParse6.java:519-520 | a variant entry is the variant tag and eight upper-case digits with the value of the notation |
| Cjk.VariantOrder | CharMapParse6.java:519-520 | variant entries sort by the value of their characters |
| Cjk.HexLexOrder | CharMapParse6.java:519-520 | equal-length upper-case hex strings sort as their values |
| Cjk.VariantEntriesWellFormed | CharMapParse6.java:523-529 | variant entries never name the character itself |
| Cjk.VariantEntriesExact | CharMapParse6.java:516-530 | an entry is a variant of a character exactly when some notation names it and it is not the character |
| Cjk.EnteredSpec | CharMapParse6.java:540-554 | a new entry is appended unless present, a missing list is created, and other lists are untouched |
| Cjk.EnteredKeepsGood | CharMapParse6.java:540-554 | lists stay free of duplicates and hold only entries |
| Cjk.EnterAllSpec | CharMapParse6.java:563-575 | entering several entries touches only one list, which then holds its old words and the new ones |
| Cjk.EnterAllKeepsGood | CharMapParse6.java:563-575 | entering entries keeps every list good |
| Cjk.WordLists.constructor | CharMapParse6.java:391 | the lists start empty |
| Cjk.WordLists.NewEntry | CharMapParse6.java:540-554 | `cjkNewEntry` leaves the lists as `Entered` says: the word is appended to its character's list unless already there, the list is created when missing, and other characters' lists are unchanged (`EnteredSpec`, `EnteredKeepsGood`) |
| Cjk.WordLists.NewWords | CharMapParse6.java:563-575 | `cjkNewWords` enters each word as a reading entry with the tag |
| Cjk.WordLists.NewCodes | CharMapParse6.java:510-531 | `cjkNewCodes` enters each variant notation |
| Cjk.WordLists.NewCode | CharMapParse6.java:519-529 | one notation is entered unless it names the character itself |
| Cjk.WordLists.AddReading | CharMapParse6.java:404-443 | a reading line enters the plain-text words of a field of interest and ignores other fields |
| Cjk.WordLists.AddVariants | CharMapParse6.java:451-462 | a variant line enters each notation of its plain-text value |
| Cjk.ReadingKeepsGood | CharMapParse6.java:404-443 | reading lines keep every list good |
| Cjk.VariantsKeepGood | CharMapParse6.java:451-462 | variant lines keep every list good |
| Cjk.SplitJoin | CharMapParse6.java:480-496 | pieces joined with single spaces split back into those pieces |
| Cjk.AssembleCaption | CharMapParse6.java:474-497 | the caption is the pieces of the sorted list joined with spaces |
| Cjk.JoinPieces | CharMapParse6.java:480-496 | the word loop joins the pieces with single spaces |
| Cjk.PieceNoSpace | CharMapParse6.java:486-493 | no piece of a caption holds a space |
| Cjk.PiecesRoundTrip | CharMapParse6.java:480-496 | joined pieces split back into those pieces |
| Cjk.CaptionRoundTrip | CharMapParse6.java:474-497 | the caption splits back into the pieces of the sorted word list |
| Cjk.TagShownOnce | CharMapParse6.java:486-493 | a reading shows its tag exactly when no earlier word has that tag, and otherwise only its word |
| Cjk.VariantsLast | CharMapParse6.java:69 | in a sorted list, variants come after all readings |
| Cjk.VariantsAscending | CharMapParse6.java:486-489 | the variants appear in ascending order of character |
| UniData.MatchName | CharMapParse6.java:681-682 | a match splits the name field as the pattern's name group does |
| UniData.MatchNameComplete | CharMapParse6.java:681-682 | every name field of that shape is matched, into its own parts |
| UniData.MatchUniLine | CharMapParse6.java:681-682 | a match splits a line as the `UnicodeData.txt` pattern does |
| UniData.MatchUniLineComplete | CharMapParse6.java:681-682 | every line of that shape is matched, into its own parts |
| UniData.UniCaption | CharMapParse6.java:685-689 | a matched line gives a number below 0x1000000 and its title-cased name |
| Maps.SortedKeysSpec | CharMapParse6.java:140 | the keys of a `TreeMap` in iteration order: ascending and exactly the key set |
| Maps.AscendingKeys | CharMapParse6.java:140-142 | the key loop lists every key once, in ascending order |
| Maps.SortedKeysUnique | CharMapParse6.java:140 | only one ascending list holds exactly the keys |
| Maps.PutAllLast | CharMapParse6.java:622-625 | after a sequence of puts, a key has the value of its last put |
| Maps.PutAllUntouched | CharMapParse6.java:622-625 | a key never put keeps its value, or stays absent |
| Maps.PutAllKeys | CharMapParse6.java:622-625 | puts of keys within a bound keep all keys within it |
| Maps.Tabulate | CharMapParse6.java:595-612 | a caption for exactly each number in the range, computed from the number |
| Maps.PutKeysSpec | CharMapParse6.java:469-499 | putting chosen keys of one map into another overrides exactly those keys |
| Maps.PutKeysAll | CharMapParse6.java:469-499 | putting every key is the map union with the new map winning |
| Generator.UniCaptionsKeys | CharMapParse6.java:672-694 | the names of `UnicodeData.txt` stay within the three-byte range |
| Generator.UniCaptionsLast | CharMapParse6.java:672-694 | a number takes the name of the last line that names it |
| Generator.UniCaptionsUnnamed | CharMapParse6.java:672-694 | a number no line names keeps its caption |
| Generator.WordListsGood | CharMapParse6.java:404-462 | the word lists built from the readings and variants are good |
| Generator.CjkCaptions | CharMapParse6.java:469-499 | a caption for exactly each character with a word list |
| Generator.FinalCaptions | CharMapParse6.java:128-130 | every captioned number is a code below 0x1000000 and a Java `int` |
| Generator.OverrideOrder | CharMapParse6.java:128-130 | a CJK caption overrides a Hangul name, which overrides the `UnicodeData.txt` name |
| Generator.CaptionMap.constructor | CharMapParse6.java:123 | the caption map starts empty |
| Generator.CaptionMap.PutCaption | CharMapParse6.java:622-625 | `putCaption` replaces any earlier caption of the number and leaves every other caption as it was |
| Generator.CaptionMap.UniBegin | CharMapParse6.java:672-694 | `uniBegin` puts the caption of every matching line in order |
| Generator.CaptionMap.UniLine | CharMapParse6.java:683-690 | one line puts its caption when it matches and changes nothing otherwise |
| Generator.CaptionMap.HanBegin | CharMapParse6.java:587-613 | `hanBegin` adds the caption of every Hangul syllable |
| Generator.CaptionMap.PutRange | CharMapParse6.java:595-612 | the range loop adds the caption of each number in the range |
| Generator.CaptionMap.CjkBegin | CharMapParse6.java:373-500 | `cjkBegin` builds good word lists and adds a caption for each character that has one |
| Generator.CaptionMap.PutLists | CharMapParse6.java:469-499 | the assembly loop adds the caption of every word list |
| Generator.CaptionMap.PutList | CharMapParse6.java:473-497 | one word list gives one caption |
| Generator.CaptionMap.Output | CharMapParse6.java:140-148 | the output loop writes one line per caption in ascending order |
| Generator.BuildLists | CharMapParse6.java:391-463 | the two read loops build the word lists of the readings and variants |
| Generator.Generate | CharMapParse6.java:116-155 | the output is the lines of the final captions |
| Handoff.ClassifiedLines | CharMap4.java:1491-1496 | every line the generator writes classifies as the caption line of its character |
| Handoff.LoadCaptionLines | CharMap4.java:1477-1496 | loading caption lines puts their captions in order and sets no label |
| Handoff.NoMark | CharMap4.java:1472-1475 | the generator's file does not start with a byte-order mark |
| Handoff.LinesLoadBack | CharMap4.java:1477-1557 | the lines of every key of a loadable map load back into that map |
| Handoff.CaptionLinesLoadBack | CharMap4.java:1477-1557 | a caption line for every key loads back into the map |
| Handoff.OutputLoadsBack | CharMapParse6.java:140-148 | the viewer loads the generator's output file back into exactly the generator's captions, and sets no label |
| Blocks.MatchNameTail | CharMapParse1.java:64 | a match splits the text after the `;` as `\s*(\S.*\S)\s*$` does |
| Blocks.MatchNameTailComplete | CharMapParse1.java:64 | every text after the `;` of that shape is matched, into its own parts |
| Blocks.MatchBlockLine | CharMapParse1.java:63-64 | a match splits a line as the `Blocks.txt` pattern does |
| Blocks.MatchBlockLineComplete | CharMapParse1.java:63-64 | every line of that shape is matched, into its own parts |
| Blocks.BlockLines | CharMapParse1.java:66-74 | a line gives no output or exactly two lines |
| Blocks.BlockLinesOf | CharMapParse1.java:68-73 | a block line gives the range test on its upper-cased bounds and the caption assignment of its name |
| Blocks.BlockLinesWhen | CharMapParse1.java:63-75 | a line gives output exactly when it has the shape of a block line |
| Blocks.NoDigitNoLines | CharMapParse1.java:64-68 | a line whose first non-space is not a hex digit gives no output |
| Blocks.UpperHexValue | CharMapParse1.java:70-72 | upper-casing the bounds keeps them hex numerals of the same value |
| Blocks.RangeTestBounds | CharMapParse1.java:70-72 | the emitted bounds are upper-case hex numerals of the line's bounds |
| Blocks.CaptionIsTrimmedName | CharMapParse1.java:64-73 | the emitted name is the trimmed text after the `;`, at least two characters long |
| Blocks.WriteBlocks | CharMapParse1.java:65-75 | the loop writes the block code of the lines read |
| Blocks.BlockCodeAppend | CharMapParse1.java:65-75 | the code of two files in sequence is the code of each, concatenated |
| Blocks.BlockCodeLength | CharMapParse1.java:65-75 | the code has two lines per block line |

## Left out

- File, console and dialog I/O are left out. Files are given as sequences of lines, and the `IOException` paths and error messages are not modelled.
- The Unihan line pattern at CharMapParse6.java:396 is not modelled. Readings and variants are records of code, field and value, as that pattern captures them.
- Fonts are given as a `FontFace` value that answers `canDisplay`, the glyph vector of a character, the glyph count and the missing glyph. The AWT rendering itself is not modelled.
- `formatComma`, the locale number formatter, is a function parameter.
- The thread that builds `captionMap` and its publication to the GUI are not modelled.
- The Windows Alt+ caption loop of `CharMap4.java` lines 1684-1710 is not modelled: it only adds captions when the viewer runs on Windows.
- Swing's `JScrollBar` is modelled by its documented contract, not its code, in `ScrollBars.ScrollBar`.
- PlainText.Titled: only ASCII letters change case. Java's `toUpperCase` and `toLowerCase` also map other letters.
- Strings are sequences of characters. A supplementary character counts as one character except in `charToString` and `checkPlainText`, which work on UTF-16 code units.
- JavaLang.JavaDigit: the decimal digits are those of the Basic Multilingual Plane as of Unicode 6.2. A later Java release knows a few more scripts' digits.
- Grid.CharMapGrid.UserKey: the early exit of `userKey` while `mainFrame` is still null is not modelled. The grid panel exists only once the frame does.
- Blocks.BlockLines: the name is emitted as it is. The source does not escape a `"` or `\` in it either.
- Blocks.MatchNameTail: `$` before a final line terminator is modelled for U+0085, U+2028 and U+2029. `\n` and `\r` are both `\s` and also terminators, so the `\s*` already covers them.
- UniData.MatchName: when `\s*;` follows the name, the greedy group runs through the first `;`, as the pattern at CharMapParse6.java:681-682 does.
- Grid.CharMapGrid.ResetScroll uses the corrected scroll clamp (see Findings). The clamp as written is `Geometry.ScrollRowAsWritten`.

## Findings

| source | as written | input that shows it | evidently intended | confidence | as-written member | corrected member |
|---|---|---|---|---|---|---|
| CharMap4.java:2839-2840 | the scroll row is clamped to `cellCount / panelColumns - panelRows + 1` | 320 cells, 16 columns, 10 rows, corner at cell 176: row 11, whose last visible row starts at cell 320 and is blank | clamp to the number of rows needed, `(cellCount + panelColumns - 1) / panelColumns`, less `panelRows`, so no blank rows remain | not executed | Geometry.ScrollRowAsWrittenLeavesBlankRow | Geometry.ScrollRowSpec |
