/** The mouse caption of a character (`CharMap4.captionGet`): a stored
    caption when one is loaded, else the name of the Unicode block holding the
    character, else its decimal number. The block table is the one generated
    from the Unicode Character Database file Blocks.txt (version 14.0.0); it
    is an if-chain in the viewer and a sequence of ranges here. */
module Captions {
  import opened JavaLang
  import opened Notation

  /** One block: an inclusive range of code points and its name. */
  datatype Block = Block(first: int, last: int, name: string)

  predicate Holds(b: Block, v: int) {
    b.first <= v <= b.last
  }

  /** From index `i` on, every range is non-empty and ends before the next
      one begins. */
  predicate ChainFrom(s: seq<Block>, i: nat)
    decreases |s| - i
  {
    i >= |s| || (s[i].first <= s[i].last && (i + 1 < |s| ==> s[i].last < s[i + 1].first) && ChainFrom(s, i + 1))
  }

  /** Ranges non-empty, ascending and pairwise disjoint. */
  predicate Ascending(t: seq<Block>) {
    (forall i | 0 <= i < |t| :: t[i].first <= t[i].last) &&
    (forall i, j | 0 <= i < j < |t| :: t[i].last < t[j].first)
  }

  const Part0: seq<Block> := [
    Block(0x0000, 0x007F, "Basic Latin"),
    Block(0x0080, 0x00FF, "Latin-1 Supplement"),
    Block(0x0100, 0x017F, "Latin Extended-A"),
    Block(0x0180, 0x024F, "Latin Extended-B"),
    Block(0x0250, 0x02AF, "IPA Extensions"),
    Block(0x02B0, 0x02FF, "Spacing Modifier Letters"),
    Block(0x0300, 0x036F, "Combining Diacritical Marks"),
    Block(0x0370, 0x03FF, "Greek and Coptic"),
    Block(0x0400, 0x04FF, "Cyrillic"),
    Block(0x0500, 0x052F, "Cyrillic Supplement"),
    Block(0x0530, 0x058F, "Armenian"),
    Block(0x0590, 0x05FF, "Hebrew"),
    Block(0x0600, 0x06FF, "Arabic"),
    Block(0x0700, 0x074F, "Syriac"),
    Block(0x0750, 0x077F, "Arabic Supplement"),
    Block(0x0780, 0x07BF, "Thaana"),
    Block(0x07C0, 0x07FF, "NKo"),
    Block(0x0800, 0x083F, "Samaritan"),
    Block(0x0840, 0x085F, "Mandaic"),
    Block(0x0860, 0x086F, "Syriac Supplement")
  ]

  const Part1: seq<Block> := [
    Block(0x0870, 0x089F, "Arabic Extended-B"),
    Block(0x08A0, 0x08FF, "Arabic Extended-A"),
    Block(0x0900, 0x097F, "Devanagari"),
    Block(0x0980, 0x09FF, "Bengali"),
    Block(0x0A00, 0x0A7F, "Gurmukhi"),
    Block(0x0A80, 0x0AFF, "Gujarati"),
    Block(0x0B00, 0x0B7F, "Oriya"),
    Block(0x0B80, 0x0BFF, "Tamil"),
    Block(0x0C00, 0x0C7F, "Telugu"),
    Block(0x0C80, 0x0CFF, "Kannada"),
    Block(0x0D00, 0x0D7F, "Malayalam"),
    Block(0x0D80, 0x0DFF, "Sinhala"),
    Block(0x0E00, 0x0E7F, "Thai"),
    Block(0x0E80, 0x0EFF, "Lao"),
    Block(0x0F00, 0x0FFF, "Tibetan"),
    Block(0x1000, 0x109F, "Myanmar"),
    Block(0x10A0, 0x10FF, "Georgian"),
    Block(0x1100, 0x11FF, "Hangul Jamo"),
    Block(0x1200, 0x137F, "Ethiopic"),
    Block(0x1380, 0x139F, "Ethiopic Supplement")
  ]

  const Part2: seq<Block> := [
    Block(0x13A0, 0x13FF, "Cherokee"),
    Block(0x1400, 0x167F, "Unified Canadian Aboriginal Syllabics"),
    Block(0x1680, 0x169F, "Ogham"),
    Block(0x16A0, 0x16FF, "Runic"),
    Block(0x1700, 0x171F, "Tagalog"),
    Block(0x1720, 0x173F, "Hanunoo"),
    Block(0x1740, 0x175F, "Buhid"),
    Block(0x1760, 0x177F, "Tagbanwa"),
    Block(0x1780, 0x17FF, "Khmer"),
    Block(0x1800, 0x18AF, "Mongolian"),
    Block(0x18B0, 0x18FF, "Unified Canadian Aboriginal Syllabics Extended"),
    Block(0x1900, 0x194F, "Limbu"),
    Block(0x1950, 0x197F, "Tai Le"),
    Block(0x1980, 0x19DF, "New Tai Lue"),
    Block(0x19E0, 0x19FF, "Khmer Symbols"),
    Block(0x1A00, 0x1A1F, "Buginese"),
    Block(0x1A20, 0x1AAF, "Tai Tham"),
    Block(0x1AB0, 0x1AFF, "Combining Diacritical Marks Extended"),
    Block(0x1B00, 0x1B7F, "Balinese"),
    Block(0x1B80, 0x1BBF, "Sundanese")
  ]

  const Part3: seq<Block> := [
    Block(0x1BC0, 0x1BFF, "Batak"),
    Block(0x1C00, 0x1C4F, "Lepcha"),
    Block(0x1C50, 0x1C7F, "Ol Chiki"),
    Block(0x1C80, 0x1C8F, "Cyrillic Extended-C"),
    Block(0x1C90, 0x1CBF, "Georgian Extended"),
    Block(0x1CC0, 0x1CCF, "Sundanese Supplement"),
    Block(0x1CD0, 0x1CFF, "Vedic Extensions"),
    Block(0x1D00, 0x1D7F, "Phonetic Extensions"),
    Block(0x1D80, 0x1DBF, "Phonetic Extensions Supplement"),
    Block(0x1DC0, 0x1DFF, "Combining Diacritical Marks Supplement"),
    Block(0x1E00, 0x1EFF, "Latin Extended Additional"),
    Block(0x1F00, 0x1FFF, "Greek Extended"),
    Block(0x2000, 0x206F, "General Punctuation"),
    Block(0x2070, 0x209F, "Superscripts and Subscripts"),
    Block(0x20A0, 0x20CF, "Currency Symbols"),
    Block(0x20D0, 0x20FF, "Combining Diacritical Marks for Symbols"),
    Block(0x2100, 0x214F, "Letterlike Symbols"),
    Block(0x2150, 0x218F, "Number Forms"),
    Block(0x2190, 0x21FF, "Arrows"),
    Block(0x2200, 0x22FF, "Mathematical Operators")
  ]

  const Part4: seq<Block> := [
    Block(0x2300, 0x23FF, "Miscellaneous Technical"),
    Block(0x2400, 0x243F, "Control Pictures"),
    Block(0x2440, 0x245F, "Optical Character Recognition"),
    Block(0x2460, 0x24FF, "Enclosed Alphanumerics"),
    Block(0x2500, 0x257F, "Box Drawing"),
    Block(0x2580, 0x259F, "Block Elements"),
    Block(0x25A0, 0x25FF, "Geometric Shapes"),
    Block(0x2600, 0x26FF, "Miscellaneous Symbols"),
    Block(0x2700, 0x27BF, "Dingbats"),
    Block(0x27C0, 0x27EF, "Miscellaneous Mathematical Symbols-A"),
    Block(0x27F0, 0x27FF, "Supplemental Arrows-A"),
    Block(0x2800, 0x28FF, "Braille Patterns"),
    Block(0x2900, 0x297F, "Supplemental Arrows-B"),
    Block(0x2980, 0x29FF, "Miscellaneous Mathematical Symbols-B"),
    Block(0x2A00, 0x2AFF, "Supplemental Mathematical Operators"),
    Block(0x2B00, 0x2BFF, "Miscellaneous Symbols and Arrows"),
    Block(0x2C00, 0x2C5F, "Glagolitic"),
    Block(0x2C60, 0x2C7F, "Latin Extended-C"),
    Block(0x2C80, 0x2CFF, "Coptic"),
    Block(0x2D00, 0x2D2F, "Georgian Supplement")
  ]

  const Part5: seq<Block> := [
    Block(0x2D30, 0x2D7F, "Tifinagh"),
    Block(0x2D80, 0x2DDF, "Ethiopic Extended"),
    Block(0x2DE0, 0x2DFF, "Cyrillic Extended-A"),
    Block(0x2E00, 0x2E7F, "Supplemental Punctuation"),
    Block(0x2E80, 0x2EFF, "CJK Radicals Supplement"),
    Block(0x2F00, 0x2FDF, "Kangxi Radicals"),
    Block(0x2FF0, 0x2FFF, "Ideographic Description Characters"),
    Block(0x3000, 0x303F, "CJK Symbols and Punctuation"),
    Block(0x3040, 0x309F, "Hiragana"),
    Block(0x30A0, 0x30FF, "Katakana"),
    Block(0x3100, 0x312F, "Bopomofo"),
    Block(0x3130, 0x318F, "Hangul Compatibility Jamo"),
    Block(0x3190, 0x319F, "Kanbun"),
    Block(0x31A0, 0x31BF, "Bopomofo Extended"),
    Block(0x31C0, 0x31EF, "CJK Strokes"),
    Block(0x31F0, 0x31FF, "Katakana Phonetic Extensions"),
    Block(0x3200, 0x32FF, "Enclosed CJK Letters and Months"),
    Block(0x3300, 0x33FF, "CJK Compatibility"),
    Block(0x3400, 0x4DBF, "CJK Unified Ideographs Extension A"),
    Block(0x4DC0, 0x4DFF, "Yijing Hexagram Symbols")
  ]

  const Part6: seq<Block> := [
    Block(0x4E00, 0x9FFF, "CJK Unified Ideographs"),
    Block(0xA000, 0xA48F, "Yi Syllables"),
    Block(0xA490, 0xA4CF, "Yi Radicals"),
    Block(0xA4D0, 0xA4FF, "Lisu"),
    Block(0xA500, 0xA63F, "Vai"),
    Block(0xA640, 0xA69F, "Cyrillic Extended-B"),
    Block(0xA6A0, 0xA6FF, "Bamum"),
    Block(0xA700, 0xA71F, "Modifier Tone Letters"),
    Block(0xA720, 0xA7FF, "Latin Extended-D"),
    Block(0xA800, 0xA82F, "Syloti Nagri"),
    Block(0xA830, 0xA83F, "Common Indic Number Forms"),
    Block(0xA840, 0xA87F, "Phags-pa"),
    Block(0xA880, 0xA8DF, "Saurashtra"),
    Block(0xA8E0, 0xA8FF, "Devanagari Extended"),
    Block(0xA900, 0xA92F, "Kayah Li"),
    Block(0xA930, 0xA95F, "Rejang"),
    Block(0xA960, 0xA97F, "Hangul Jamo Extended-A"),
    Block(0xA980, 0xA9DF, "Javanese"),
    Block(0xA9E0, 0xA9FF, "Myanmar Extended-B"),
    Block(0xAA00, 0xAA5F, "Cham")
  ]

  const Part7: seq<Block> := [
    Block(0xAA60, 0xAA7F, "Myanmar Extended-A"),
    Block(0xAA80, 0xAADF, "Tai Viet"),
    Block(0xAAE0, 0xAAFF, "Meetei Mayek Extensions"),
    Block(0xAB00, 0xAB2F, "Ethiopic Extended-A"),
    Block(0xAB30, 0xAB6F, "Latin Extended-E"),
    Block(0xAB70, 0xABBF, "Cherokee Supplement"),
    Block(0xABC0, 0xABFF, "Meetei Mayek"),
    Block(0xAC00, 0xD7AF, "Hangul Syllables"),
    Block(0xD7B0, 0xD7FF, "Hangul Jamo Extended-B"),
    Block(0xD800, 0xDB7F, "High Surrogates"),
    Block(0xDB80, 0xDBFF, "High Private Use Surrogates"),
    Block(0xDC00, 0xDFFF, "Low Surrogates"),
    Block(0xE000, 0xF8FF, "Private Use Area"),
    Block(0xF900, 0xFAFF, "CJK Compatibility Ideographs"),
    Block(0xFB00, 0xFB4F, "Alphabetic Presentation Forms"),
    Block(0xFB50, 0xFDFF, "Arabic Presentation Forms-A"),
    Block(0xFE00, 0xFE0F, "Variation Selectors"),
    Block(0xFE10, 0xFE1F, "Vertical Forms"),
    Block(0xFE20, 0xFE2F, "Combining Half Marks"),
    Block(0xFE30, 0xFE4F, "CJK Compatibility Forms")
  ]

  const Part8: seq<Block> := [
    Block(0xFE50, 0xFE6F, "Small Form Variants"),
    Block(0xFE70, 0xFEFF, "Arabic Presentation Forms-B"),
    Block(0xFF00, 0xFFEF, "Halfwidth and Fullwidth Forms"),
    Block(0xFFF0, 0xFFFF, "Specials"),
    Block(0x10000, 0x1007F, "Linear B Syllabary"),
    Block(0x10080, 0x100FF, "Linear B Ideograms"),
    Block(0x10100, 0x1013F, "Aegean Numbers"),
    Block(0x10140, 0x1018F, "Ancient Greek Numbers"),
    Block(0x10190, 0x101CF, "Ancient Symbols"),
    Block(0x101D0, 0x101FF, "Phaistos Disc"),
    Block(0x10280, 0x1029F, "Lycian"),
    Block(0x102A0, 0x102DF, "Carian"),
    Block(0x102E0, 0x102FF, "Coptic Epact Numbers"),
    Block(0x10300, 0x1032F, "Old Italic"),
    Block(0x10330, 0x1034F, "Gothic"),
    Block(0x10350, 0x1037F, "Old Permic"),
    Block(0x10380, 0x1039F, "Ugaritic"),
    Block(0x103A0, 0x103DF, "Old Persian"),
    Block(0x10400, 0x1044F, "Deseret"),
    Block(0x10450, 0x1047F, "Shavian")
  ]

  const Part9: seq<Block> := [
    Block(0x10480, 0x104AF, "Osmanya"),
    Block(0x104B0, 0x104FF, "Osage"),
    Block(0x10500, 0x1052F, "Elbasan"),
    Block(0x10530, 0x1056F, "Caucasian Albanian"),
    Block(0x10570, 0x105BF, "Vithkuqi"),
    Block(0x10600, 0x1077F, "Linear A"),
    Block(0x10780, 0x107BF, "Latin Extended-F"),
    Block(0x10800, 0x1083F, "Cypriot Syllabary"),
    Block(0x10840, 0x1085F, "Imperial Aramaic"),
    Block(0x10860, 0x1087F, "Palmyrene"),
    Block(0x10880, 0x108AF, "Nabataean"),
    Block(0x108E0, 0x108FF, "Hatran"),
    Block(0x10900, 0x1091F, "Phoenician"),
    Block(0x10920, 0x1093F, "Lydian"),
    Block(0x10980, 0x1099F, "Meroitic Hieroglyphs"),
    Block(0x109A0, 0x109FF, "Meroitic Cursive"),
    Block(0x10A00, 0x10A5F, "Kharoshthi"),
    Block(0x10A60, 0x10A7F, "Old South Arabian"),
    Block(0x10A80, 0x10A9F, "Old North Arabian"),
    Block(0x10AC0, 0x10AFF, "Manichaean")
  ]

  const Part10: seq<Block> := [
    Block(0x10B00, 0x10B3F, "Avestan"),
    Block(0x10B40, 0x10B5F, "Inscriptional Parthian"),
    Block(0x10B60, 0x10B7F, "Inscriptional Pahlavi"),
    Block(0x10B80, 0x10BAF, "Psalter Pahlavi"),
    Block(0x10C00, 0x10C4F, "Old Turkic"),
    Block(0x10C80, 0x10CFF, "Old Hungarian"),
    Block(0x10D00, 0x10D3F, "Hanifi Rohingya"),
    Block(0x10E60, 0x10E7F, "Rumi Numeral Symbols"),
    Block(0x10E80, 0x10EBF, "Yezidi"),
    Block(0x10F00, 0x10F2F, "Old Sogdian"),
    Block(0x10F30, 0x10F6F, "Sogdian"),
    Block(0x10F70, 0x10FAF, "Old Uyghur"),
    Block(0x10FB0, 0x10FDF, "Chorasmian"),
    Block(0x10FE0, 0x10FFF, "Elymaic"),
    Block(0x11000, 0x1107F, "Brahmi"),
    Block(0x11080, 0x110CF, "Kaithi"),
    Block(0x110D0, 0x110FF, "Sora Sompeng"),
    Block(0x11100, 0x1114F, "Chakma"),
    Block(0x11150, 0x1117F, "Mahajani"),
    Block(0x11180, 0x111DF, "Sharada")
  ]

  const Part11: seq<Block> := [
    Block(0x111E0, 0x111FF, "Sinhala Archaic Numbers"),
    Block(0x11200, 0x1124F, "Khojki"),
    Block(0x11280, 0x112AF, "Multani"),
    Block(0x112B0, 0x112FF, "Khudawadi"),
    Block(0x11300, 0x1137F, "Grantha"),
    Block(0x11400, 0x1147F, "Newa"),
    Block(0x11480, 0x114DF, "Tirhuta"),
    Block(0x11580, 0x115FF, "Siddham"),
    Block(0x11600, 0x1165F, "Modi"),
    Block(0x11660, 0x1167F, "Mongolian Supplement"),
    Block(0x11680, 0x116CF, "Takri"),
    Block(0x11700, 0x1174F, "Ahom"),
    Block(0x11800, 0x1184F, "Dogra"),
    Block(0x118A0, 0x118FF, "Warang Citi"),
    Block(0x11900, 0x1195F, "Dives Akuru"),
    Block(0x119A0, 0x119FF, "Nandinagari"),
    Block(0x11A00, 0x11A4F, "Zanabazar Square"),
    Block(0x11A50, 0x11AAF, "Soyombo"),
    Block(0x11AB0, 0x11ABF, "Unified Canadian Aboriginal Syllabics Extended-A"),
    Block(0x11AC0, 0x11AFF, "Pau Cin Hau")
  ]

  const Part12: seq<Block> := [
    Block(0x11C00, 0x11C6F, "Bhaiksuki"),
    Block(0x11C70, 0x11CBF, "Marchen"),
    Block(0x11D00, 0x11D5F, "Masaram Gondi"),
    Block(0x11D60, 0x11DAF, "Gunjala Gondi"),
    Block(0x11EE0, 0x11EFF, "Makasar"),
    Block(0x11FB0, 0x11FBF, "Lisu Supplement"),
    Block(0x11FC0, 0x11FFF, "Tamil Supplement"),
    Block(0x12000, 0x123FF, "Cuneiform"),
    Block(0x12400, 0x1247F, "Cuneiform Numbers and Punctuation"),
    Block(0x12480, 0x1254F, "Early Dynastic Cuneiform"),
    Block(0x12F90, 0x12FFF, "Cypro-Minoan"),
    Block(0x13000, 0x1342F, "Egyptian Hieroglyphs"),
    Block(0x13430, 0x1343F, "Egyptian Hieroglyph Format Controls"),
    Block(0x14400, 0x1467F, "Anatolian Hieroglyphs"),
    Block(0x16800, 0x16A3F, "Bamum Supplement"),
    Block(0x16A40, 0x16A6F, "Mro"),
    Block(0x16A70, 0x16ACF, "Tangsa"),
    Block(0x16AD0, 0x16AFF, "Bassa Vah"),
    Block(0x16B00, 0x16B8F, "Pahawh Hmong"),
    Block(0x16E40, 0x16E9F, "Medefaidrin")
  ]

  const Part13: seq<Block> := [
    Block(0x16F00, 0x16F9F, "Miao"),
    Block(0x16FE0, 0x16FFF, "Ideographic Symbols and Punctuation"),
    Block(0x17000, 0x187FF, "Tangut"),
    Block(0x18800, 0x18AFF, "Tangut Components"),
    Block(0x18B00, 0x18CFF, "Khitan Small Script"),
    Block(0x18D00, 0x18D7F, "Tangut Supplement"),
    Block(0x1AFF0, 0x1AFFF, "Kana Extended-B"),
    Block(0x1B000, 0x1B0FF, "Kana Supplement"),
    Block(0x1B100, 0x1B12F, "Kana Extended-A"),
    Block(0x1B130, 0x1B16F, "Small Kana Extension"),
    Block(0x1B170, 0x1B2FF, "Nushu"),
    Block(0x1BC00, 0x1BC9F, "Duployan"),
    Block(0x1BCA0, 0x1BCAF, "Shorthand Format Controls"),
    Block(0x1CF00, 0x1CFCF, "Znamenny Musical Notation"),
    Block(0x1D000, 0x1D0FF, "Byzantine Musical Symbols"),
    Block(0x1D100, 0x1D1FF, "Musical Symbols"),
    Block(0x1D200, 0x1D24F, "Ancient Greek Musical Notation"),
    Block(0x1D2E0, 0x1D2FF, "Mayan Numerals"),
    Block(0x1D300, 0x1D35F, "Tai Xuan Jing Symbols"),
    Block(0x1D360, 0x1D37F, "Counting Rod Numerals")
  ]

  const Part14: seq<Block> := [
    Block(0x1D400, 0x1D7FF, "Mathematical Alphanumeric Symbols"),
    Block(0x1D800, 0x1DAAF, "Sutton SignWriting"),
    Block(0x1DF00, 0x1DFFF, "Latin Extended-G"),
    Block(0x1E000, 0x1E02F, "Glagolitic Supplement"),
    Block(0x1E100, 0x1E14F, "Nyiakeng Puachue Hmong"),
    Block(0x1E290, 0x1E2BF, "Toto"),
    Block(0x1E2C0, 0x1E2FF, "Wancho"),
    Block(0x1E7E0, 0x1E7FF, "Ethiopic Extended-B"),
    Block(0x1E800, 0x1E8DF, "Mende Kikakui"),
    Block(0x1E900, 0x1E95F, "Adlam"),
    Block(0x1EC70, 0x1ECBF, "Indic Siyaq Numbers"),
    Block(0x1ED00, 0x1ED4F, "Ottoman Siyaq Numbers"),
    Block(0x1EE00, 0x1EEFF, "Arabic Mathematical Alphabetic Symbols"),
    Block(0x1F000, 0x1F02F, "Mahjong Tiles"),
    Block(0x1F030, 0x1F09F, "Domino Tiles"),
    Block(0x1F0A0, 0x1F0FF, "Playing Cards"),
    Block(0x1F100, 0x1F1FF, "Enclosed Alphanumeric Supplement"),
    Block(0x1F200, 0x1F2FF, "Enclosed Ideographic Supplement"),
    Block(0x1F300, 0x1F5FF, "Miscellaneous Symbols and Pictographs"),
    Block(0x1F600, 0x1F64F, "Emoticons")
  ]

  const Part15: seq<Block> := [
    Block(0x1F650, 0x1F67F, "Ornamental Dingbats"),
    Block(0x1F680, 0x1F6FF, "Transport and Map Symbols"),
    Block(0x1F700, 0x1F77F, "Alchemical Symbols"),
    Block(0x1F780, 0x1F7FF, "Geometric Shapes Extended"),
    Block(0x1F800, 0x1F8FF, "Supplemental Arrows-C"),
    Block(0x1F900, 0x1F9FF, "Supplemental Symbols and Pictographs"),
    Block(0x1FA00, 0x1FA6F, "Chess Symbols"),
    Block(0x1FA70, 0x1FAFF, "Symbols and Pictographs Extended-A"),
    Block(0x1FB00, 0x1FBFF, "Symbols for Legacy Computing"),
    Block(0x20000, 0x2A6DF, "CJK Unified Ideographs Extension B"),
    Block(0x2A700, 0x2B73F, "CJK Unified Ideographs Extension C"),
    Block(0x2B740, 0x2B81F, "CJK Unified Ideographs Extension D"),
    Block(0x2B820, 0x2CEAF, "CJK Unified Ideographs Extension E"),
    Block(0x2CEB0, 0x2EBEF, "CJK Unified Ideographs Extension F"),
    Block(0x2F800, 0x2FA1F, "CJK Compatibility Ideographs Supplement"),
    Block(0x30000, 0x3134F, "CJK Unified Ideographs Extension G"),
    Block(0xE0000, 0xE007F, "Tags"),
    Block(0xE0100, 0xE01EF, "Variation Selectors Supplement"),
    Block(0xF0000, 0xFFFFF, "Supplementary Private Use Area-A"),
    Block(0x100000, 0x10FFFF, "Supplementary Private Use Area-B")
  ]

  lemma Part0Chain()
    ensures ChainFrom(Part0, 0)
  {
    assert ChainFrom(Part0, 19);
    assert ChainFrom(Part0, 18);
    assert ChainFrom(Part0, 17);
    assert ChainFrom(Part0, 16);
    assert ChainFrom(Part0, 15);
    assert ChainFrom(Part0, 14);
    assert ChainFrom(Part0, 13);
    assert ChainFrom(Part0, 12);
    assert ChainFrom(Part0, 11);
    assert ChainFrom(Part0, 10);
    assert ChainFrom(Part0, 9);
    assert ChainFrom(Part0, 8);
    assert ChainFrom(Part0, 7);
    assert ChainFrom(Part0, 6);
    assert ChainFrom(Part0, 5);
    assert ChainFrom(Part0, 4);
    assert ChainFrom(Part0, 3);
    assert ChainFrom(Part0, 2);
    assert ChainFrom(Part0, 1);
    assert ChainFrom(Part0, 0);
  }

  lemma Part1Chain()
    ensures ChainFrom(Part1, 0)
  {
    assert ChainFrom(Part1, 19);
    assert ChainFrom(Part1, 18);
    assert ChainFrom(Part1, 17);
    assert ChainFrom(Part1, 16);
    assert ChainFrom(Part1, 15);
    assert ChainFrom(Part1, 14);
    assert ChainFrom(Part1, 13);
    assert ChainFrom(Part1, 12);
    assert ChainFrom(Part1, 11);
    assert ChainFrom(Part1, 10);
    assert ChainFrom(Part1, 9);
    assert ChainFrom(Part1, 8);
    assert ChainFrom(Part1, 7);
    assert ChainFrom(Part1, 6);
    assert ChainFrom(Part1, 5);
    assert ChainFrom(Part1, 4);
    assert ChainFrom(Part1, 3);
    assert ChainFrom(Part1, 2);
    assert ChainFrom(Part1, 1);
    assert ChainFrom(Part1, 0);
  }

  lemma Part2Chain()
    ensures ChainFrom(Part2, 0)
  {
    assert ChainFrom(Part2, 19);
    assert ChainFrom(Part2, 18);
    assert ChainFrom(Part2, 17);
    assert ChainFrom(Part2, 16);
    assert ChainFrom(Part2, 15);
    assert ChainFrom(Part2, 14);
    assert ChainFrom(Part2, 13);
    assert ChainFrom(Part2, 12);
    assert ChainFrom(Part2, 11);
    assert ChainFrom(Part2, 10);
    assert ChainFrom(Part2, 9);
    assert ChainFrom(Part2, 8);
    assert ChainFrom(Part2, 7);
    assert ChainFrom(Part2, 6);
    assert ChainFrom(Part2, 5);
    assert ChainFrom(Part2, 4);
    assert ChainFrom(Part2, 3);
    assert ChainFrom(Part2, 2);
    assert ChainFrom(Part2, 1);
    assert ChainFrom(Part2, 0);
  }

  lemma Part3Chain()
    ensures ChainFrom(Part3, 0)
  {
    assert ChainFrom(Part3, 19);
    assert ChainFrom(Part3, 18);
    assert ChainFrom(Part3, 17);
    assert ChainFrom(Part3, 16);
    assert ChainFrom(Part3, 15);
    assert ChainFrom(Part3, 14);
    assert ChainFrom(Part3, 13);
    assert ChainFrom(Part3, 12);
    assert ChainFrom(Part3, 11);
    assert ChainFrom(Part3, 10);
    assert ChainFrom(Part3, 9);
    assert ChainFrom(Part3, 8);
    assert ChainFrom(Part3, 7);
    assert ChainFrom(Part3, 6);
    assert ChainFrom(Part3, 5);
    assert ChainFrom(Part3, 4);
    assert ChainFrom(Part3, 3);
    assert ChainFrom(Part3, 2);
    assert ChainFrom(Part3, 1);
    assert ChainFrom(Part3, 0);
  }

  lemma Part4Chain()
    ensures ChainFrom(Part4, 0)
  {
    assert ChainFrom(Part4, 19);
    assert ChainFrom(Part4, 18);
    assert ChainFrom(Part4, 17);
    assert ChainFrom(Part4, 16);
    assert ChainFrom(Part4, 15);
    assert ChainFrom(Part4, 14);
    assert ChainFrom(Part4, 13);
    assert ChainFrom(Part4, 12);
    assert ChainFrom(Part4, 11);
    assert ChainFrom(Part4, 10);
    assert ChainFrom(Part4, 9);
    assert ChainFrom(Part4, 8);
    assert ChainFrom(Part4, 7);
    assert ChainFrom(Part4, 6);
    assert ChainFrom(Part4, 5);
    assert ChainFrom(Part4, 4);
    assert ChainFrom(Part4, 3);
    assert ChainFrom(Part4, 2);
    assert ChainFrom(Part4, 1);
    assert ChainFrom(Part4, 0);
  }

  lemma Part5Chain()
    ensures ChainFrom(Part5, 0)
  {
    assert ChainFrom(Part5, 19);
    assert ChainFrom(Part5, 18);
    assert ChainFrom(Part5, 17);
    assert ChainFrom(Part5, 16);
    assert ChainFrom(Part5, 15);
    assert ChainFrom(Part5, 14);
    assert ChainFrom(Part5, 13);
    assert ChainFrom(Part5, 12);
    assert ChainFrom(Part5, 11);
    assert ChainFrom(Part5, 10);
    assert ChainFrom(Part5, 9);
    assert ChainFrom(Part5, 8);
    assert ChainFrom(Part5, 7);
    assert ChainFrom(Part5, 6);
    assert ChainFrom(Part5, 5);
    assert ChainFrom(Part5, 4);
    assert ChainFrom(Part5, 3);
    assert ChainFrom(Part5, 2);
    assert ChainFrom(Part5, 1);
    assert ChainFrom(Part5, 0);
  }

  lemma Part6Chain()
    ensures ChainFrom(Part6, 0)
  {
    assert ChainFrom(Part6, 19);
    assert ChainFrom(Part6, 18);
    assert ChainFrom(Part6, 17);
    assert ChainFrom(Part6, 16);
    assert ChainFrom(Part6, 15);
    assert ChainFrom(Part6, 14);
    assert ChainFrom(Part6, 13);
    assert ChainFrom(Part6, 12);
    assert ChainFrom(Part6, 11);
    assert ChainFrom(Part6, 10);
    assert ChainFrom(Part6, 9);
    assert ChainFrom(Part6, 8);
    assert ChainFrom(Part6, 7);
    assert ChainFrom(Part6, 6);
    assert ChainFrom(Part6, 5);
    assert ChainFrom(Part6, 4);
    assert ChainFrom(Part6, 3);
    assert ChainFrom(Part6, 2);
    assert ChainFrom(Part6, 1);
    assert ChainFrom(Part6, 0);
  }

  lemma Part7Chain()
    ensures ChainFrom(Part7, 0)
  {
    assert ChainFrom(Part7, 19);
    assert ChainFrom(Part7, 18);
    assert ChainFrom(Part7, 17);
    assert ChainFrom(Part7, 16);
    assert ChainFrom(Part7, 15);
    assert ChainFrom(Part7, 14);
    assert ChainFrom(Part7, 13);
    assert ChainFrom(Part7, 12);
    assert ChainFrom(Part7, 11);
    assert ChainFrom(Part7, 10);
    assert ChainFrom(Part7, 9);
    assert ChainFrom(Part7, 8);
    assert ChainFrom(Part7, 7);
    assert ChainFrom(Part7, 6);
    assert ChainFrom(Part7, 5);
    assert ChainFrom(Part7, 4);
    assert ChainFrom(Part7, 3);
    assert ChainFrom(Part7, 2);
    assert ChainFrom(Part7, 1);
    assert ChainFrom(Part7, 0);
  }

  lemma Part8Chain()
    ensures ChainFrom(Part8, 0)
  {
    assert ChainFrom(Part8, 19);
    assert ChainFrom(Part8, 18);
    assert ChainFrom(Part8, 17);
    assert ChainFrom(Part8, 16);
    assert ChainFrom(Part8, 15);
    assert ChainFrom(Part8, 14);
    assert ChainFrom(Part8, 13);
    assert ChainFrom(Part8, 12);
    assert ChainFrom(Part8, 11);
    assert ChainFrom(Part8, 10);
    assert ChainFrom(Part8, 9);
    assert ChainFrom(Part8, 8);
    assert ChainFrom(Part8, 7);
    assert ChainFrom(Part8, 6);
    assert ChainFrom(Part8, 5);
    assert ChainFrom(Part8, 4);
    assert ChainFrom(Part8, 3);
    assert ChainFrom(Part8, 2);
    assert ChainFrom(Part8, 1);
    assert ChainFrom(Part8, 0);
  }

  lemma Part9Chain()
    ensures ChainFrom(Part9, 0)
  {
    assert ChainFrom(Part9, 19);
    assert ChainFrom(Part9, 18);
    assert ChainFrom(Part9, 17);
    assert ChainFrom(Part9, 16);
    assert ChainFrom(Part9, 15);
    assert ChainFrom(Part9, 14);
    assert ChainFrom(Part9, 13);
    assert ChainFrom(Part9, 12);
    assert ChainFrom(Part9, 11);
    assert ChainFrom(Part9, 10);
    assert ChainFrom(Part9, 9);
    assert ChainFrom(Part9, 8);
    assert ChainFrom(Part9, 7);
    assert ChainFrom(Part9, 6);
    assert ChainFrom(Part9, 5);
    assert ChainFrom(Part9, 4);
    assert ChainFrom(Part9, 3);
    assert ChainFrom(Part9, 2);
    assert ChainFrom(Part9, 1);
    assert ChainFrom(Part9, 0);
  }

  lemma Part10Chain()
    ensures ChainFrom(Part10, 0)
  {
    assert ChainFrom(Part10, 19);
    assert ChainFrom(Part10, 18);
    assert ChainFrom(Part10, 17);
    assert ChainFrom(Part10, 16);
    assert ChainFrom(Part10, 15);
    assert ChainFrom(Part10, 14);
    assert ChainFrom(Part10, 13);
    assert ChainFrom(Part10, 12);
    assert ChainFrom(Part10, 11);
    assert ChainFrom(Part10, 10);
    assert ChainFrom(Part10, 9);
    assert ChainFrom(Part10, 8);
    assert ChainFrom(Part10, 7);
    assert ChainFrom(Part10, 6);
    assert ChainFrom(Part10, 5);
    assert ChainFrom(Part10, 4);
    assert ChainFrom(Part10, 3);
    assert ChainFrom(Part10, 2);
    assert ChainFrom(Part10, 1);
    assert ChainFrom(Part10, 0);
  }

  lemma Part11Chain()
    ensures ChainFrom(Part11, 0)
  {
    assert ChainFrom(Part11, 19);
    assert ChainFrom(Part11, 18);
    assert ChainFrom(Part11, 17);
    assert ChainFrom(Part11, 16);
    assert ChainFrom(Part11, 15);
    assert ChainFrom(Part11, 14);
    assert ChainFrom(Part11, 13);
    assert ChainFrom(Part11, 12);
    assert ChainFrom(Part11, 11);
    assert ChainFrom(Part11, 10);
    assert ChainFrom(Part11, 9);
    assert ChainFrom(Part11, 8);
    assert ChainFrom(Part11, 7);
    assert ChainFrom(Part11, 6);
    assert ChainFrom(Part11, 5);
    assert ChainFrom(Part11, 4);
    assert ChainFrom(Part11, 3);
    assert ChainFrom(Part11, 2);
    assert ChainFrom(Part11, 1);
    assert ChainFrom(Part11, 0);
  }

  lemma Part12Chain()
    ensures ChainFrom(Part12, 0)
  {
    assert ChainFrom(Part12, 19);
    assert ChainFrom(Part12, 18);
    assert ChainFrom(Part12, 17);
    assert ChainFrom(Part12, 16);
    assert ChainFrom(Part12, 15);
    assert ChainFrom(Part12, 14);
    assert ChainFrom(Part12, 13);
    assert ChainFrom(Part12, 12);
    assert ChainFrom(Part12, 11);
    assert ChainFrom(Part12, 10);
    assert ChainFrom(Part12, 9);
    assert ChainFrom(Part12, 8);
    assert ChainFrom(Part12, 7);
    assert ChainFrom(Part12, 6);
    assert ChainFrom(Part12, 5);
    assert ChainFrom(Part12, 4);
    assert ChainFrom(Part12, 3);
    assert ChainFrom(Part12, 2);
    assert ChainFrom(Part12, 1);
    assert ChainFrom(Part12, 0);
  }

  lemma Part13Chain()
    ensures ChainFrom(Part13, 0)
  {
    assert ChainFrom(Part13, 19);
    assert ChainFrom(Part13, 18);
    assert ChainFrom(Part13, 17);
    assert ChainFrom(Part13, 16);
    assert ChainFrom(Part13, 15);
    assert ChainFrom(Part13, 14);
    assert ChainFrom(Part13, 13);
    assert ChainFrom(Part13, 12);
    assert ChainFrom(Part13, 11);
    assert ChainFrom(Part13, 10);
    assert ChainFrom(Part13, 9);
    assert ChainFrom(Part13, 8);
    assert ChainFrom(Part13, 7);
    assert ChainFrom(Part13, 6);
    assert ChainFrom(Part13, 5);
    assert ChainFrom(Part13, 4);
    assert ChainFrom(Part13, 3);
    assert ChainFrom(Part13, 2);
    assert ChainFrom(Part13, 1);
    assert ChainFrom(Part13, 0);
  }

  lemma Part14Chain()
    ensures ChainFrom(Part14, 0)
  {
    assert ChainFrom(Part14, 19);
    assert ChainFrom(Part14, 18);
    assert ChainFrom(Part14, 17);
    assert ChainFrom(Part14, 16);
    assert ChainFrom(Part14, 15);
    assert ChainFrom(Part14, 14);
    assert ChainFrom(Part14, 13);
    assert ChainFrom(Part14, 12);
    assert ChainFrom(Part14, 11);
    assert ChainFrom(Part14, 10);
    assert ChainFrom(Part14, 9);
    assert ChainFrom(Part14, 8);
    assert ChainFrom(Part14, 7);
    assert ChainFrom(Part14, 6);
    assert ChainFrom(Part14, 5);
    assert ChainFrom(Part14, 4);
    assert ChainFrom(Part14, 3);
    assert ChainFrom(Part14, 2);
    assert ChainFrom(Part14, 1);
    assert ChainFrom(Part14, 0);
  }

  lemma Part15Chain()
    ensures ChainFrom(Part15, 0)
  {
    assert ChainFrom(Part15, 19);
    assert ChainFrom(Part15, 18);
    assert ChainFrom(Part15, 17);
    assert ChainFrom(Part15, 16);
    assert ChainFrom(Part15, 15);
    assert ChainFrom(Part15, 14);
    assert ChainFrom(Part15, 13);
    assert ChainFrom(Part15, 12);
    assert ChainFrom(Part15, 11);
    assert ChainFrom(Part15, 10);
    assert ChainFrom(Part15, 9);
    assert ChainFrom(Part15, 8);
    assert ChainFrom(Part15, 7);
    assert ChainFrom(Part15, 6);
    assert ChainFrom(Part15, 5);
    assert ChainFrom(Part15, 4);
    assert ChainFrom(Part15, 3);
    assert ChainFrom(Part15, 2);
    assert ChainFrom(Part15, 1);
    assert ChainFrom(Part15, 0);
  }

  /** The whole table, in the order of the if-chain (CharMap4.java, lines
      702 to 1341). */
  /** The first and second halves of the table. */
  const LowBlocks: seq<Block> := Part0 + Part1 + Part2 + Part3 + Part4 + Part5 + Part6 + Part7
  const HighBlocks: seq<Block> := Part8 + Part9 + Part10 + Part11 + Part12 + Part13 + Part14 + Part15
  const BlockTable: seq<Block> := LowBlocks + HighBlocks

  lemma LowBlocksChain()
    ensures ChainFrom(LowBlocks, 0)
  {
    Part0Chain();
    Part1Chain();
    Part2Chain();
    Part3Chain();
    Part4Chain();
    Part5Chain();
    Part6Chain();
    Part7Chain();
    ChainAppend(Part0, Part1);
    ChainAppend(Part0 + Part1, Part2);
    ChainAppend(Part0 + Part1 + Part2, Part3);
    ChainAppend(Part0 + Part1 + Part2 + Part3, Part4);
    ChainAppend(Part0 + Part1 + Part2 + Part3 + Part4, Part5);
    ChainAppend(Part0 + Part1 + Part2 + Part3 + Part4 + Part5, Part6);
    ChainAppend(Part0 + Part1 + Part2 + Part3 + Part4 + Part5 + Part6, Part7);
  }

  lemma HighBlocksChain()
    ensures ChainFrom(HighBlocks, 0)
  {
    Part8Chain();
    Part9Chain();
    Part10Chain();
    Part11Chain();
    Part12Chain();
    Part13Chain();
    Part14Chain();
    Part15Chain();
    ChainAppend(Part8, Part9);
    ChainAppend(Part8 + Part9, Part10);
    ChainAppend(Part8 + Part9 + Part10, Part11);
    ChainAppend(Part8 + Part9 + Part10 + Part11, Part12);
    ChainAppend(Part8 + Part9 + Part10 + Part11 + Part12, Part13);
    ChainAppend(Part8 + Part9 + Part10 + Part11 + Part12 + Part13, Part14);
    ChainAppend(Part8 + Part9 + Part10 + Part11 + Part12 + Part13 + Part14, Part15);
  }

  lemma BlockTableChain()
    ensures ChainFrom(BlockTable, 0)
  {
    LowBlocksChain();
    HighBlocksChain();
    ChainAppend(LowBlocks, HighBlocks);
  }

  /** Joining two well-formed tables keeps the chain when the first ends
      before the second begins. */
  lemma ChainAppend(a: seq<Block>, b: seq<Block>)
    requires ChainFrom(a, 0) && ChainFrom(b, 0)
    requires |a| > 0 && |b| > 0 && a[|a| - 1].last < b[0].first
    ensures ChainFrom(a + b, 0)
  {
    ChainSuffix(a, b, 0);
    ChainPrefix(a, b, 0);
  }

  lemma {:induction false} ChainSuffix(a: seq<Block>, b: seq<Block>, i: nat)
    requires i <= |b| && ChainFrom(b, i)
    ensures ChainFrom(a + b, |a| + i)
    decreases |b| - i
  {
    if i < |b| {
      ChainSuffix(a, b, i + 1);
    }
  }

  lemma {:induction false} ChainPrefix(a: seq<Block>, b: seq<Block>, i: nat)
    requires i < |a| && ChainFrom(a, i) && ChainFrom(a + b, |a|)
    requires |b| > 0 && a[|a| - 1].last < b[0].first
    ensures ChainFrom(a + b, i)
    decreases |a| - i
  {
    if i + 1 < |a| {
      ChainPrefix(a, b, i + 1);
    }
  }

  /** A chain is an ascending, disjoint table. */
  lemma {:induction false} ChainAscending(s: seq<Block>, i: nat)
    requires i <= |s| && ChainFrom(s, i)
    ensures Ascending(s[i..])
    decreases |s| - i
  {
    if i < |s| {
      ChainAscending(s, i + 1);
      var t := s[i..];
      assert t[1..] == s[i + 1..];
      forall j, k | 0 <= j < k < |t| ensures t[j].last < t[k].first {
        if j == 0 && k > 1 {
          assert t[1].first <= t[1].last < t[k].first;
        }
      }
    }
  }

  /** The block table's ranges are non-empty, ascending and disjoint, so a
      character lies in at most one block. */
  lemma BlockTableAscending()
    ensures Ascending(BlockTable)
  {
    BlockTableChain();
    ChainAscending(BlockTable, 0);
    assert BlockTable[0..] == BlockTable;
  }

  /** The if-chain: the first range, from index `i` on, that holds `v`. */
  function FirstMatch(t: seq<Block>, v: int, i: nat): Option<string>
    decreases |t| - i
  {
    if i >= |t| then None
    else if Holds(t[i], v) then Some(t[i].name)
    else FirstMatch(t, v, i + 1)
  }

  /** The block name of a character, as the generated if-chain finds it. */
  function BlockName(v: int): Option<string> {
    FirstMatch(BlockTable, v, 0)
  }

  lemma {:induction false} FirstMatchFound(t: seq<Block>, v: int, i: nat, k: nat)
    requires Ascending(t) && i <= k < |t| && Holds(t[k], v)
    ensures FirstMatch(t, v, i) == Some(t[k].name)
    decreases k - i
  {
    if i < k {
      assert !Holds(t[i], v) by {
        assert t[i].last < t[k].first;
      }
      FirstMatchFound(t, v, i + 1, k);
    }
  }

  lemma {:induction false} FirstMatchMissing(t: seq<Block>, v: int, i: nat)
    requires i <= |t|
    ensures FirstMatch(t, v, i).None? <==> forall j | i <= j < |t| :: !Holds(t[j], v)
    decreases |t| - i
  {
    if i < |t| {
      FirstMatchMissing(t, v, i + 1);
    }
  }

  /** A character has a block name exactly when some block holds it, and the
      name is that of the one block holding it. */
  lemma BlockNameSpec(v: int)
    ensures BlockName(v).None? <==> forall i | 0 <= i < |BlockTable| :: !Holds(BlockTable[i], v)
    ensures forall i | 0 <= i < |BlockTable| && Holds(BlockTable[i], v) :: BlockName(v) == Some(BlockTable[i].name)
  {
    BlockTableAscending();
    FirstMatchMissing(BlockTable, v, 0);
    forall i | 0 <= i < |BlockTable| && Holds(BlockTable[i], v)
      ensures BlockName(v) == Some(BlockTable[i].name)
    {
      FirstMatchFound(BlockTable, v, 0, i);
    }
  }

  /** The characters 0x00 to 0x7F lie in the first block, Basic Latin. */
  lemma BlockNameBasicLatin(v: int)
    requires 0 <= v <= 0x7F
    ensures BlockName(v) == Some("Basic Latin")
  {
    assert BlockTable[0] == Block(0x0000, 0x007F, "Basic Latin");
  }

  /** `captionGet(value)` with the block lookup given as `blockName`:
      `captions` is the loaded caption map, or `None` while the loader has
      not published one; `formatComma` is the locale's digit-grouping
      formatter. */
  function CaptionWith(value: int, captions: Option<map<int, string>>,
                       blockName: int -> Option<string>, formatComma: int -> string): string
    requires IsJavaInt(value)
  {
    UnicodeNotation(value) + " = " +
    if captions.Some? && value in captions.value then captions.value[value]
    else match blockName(value)
      case Some(name) => name
      case None => "decimal " + formatComma(value)
  }

  /** The caption is the character's notation and " = ", then the stored
      caption if there is one, else the block name if there is one, else
      "decimal" and the formatted number. */
  lemma CaptionWithSpec(value: int, captions: Option<map<int, string>>,
                        blockName: int -> Option<string>, formatComma: int -> string)
    requires IsJavaInt(value)
    ensures var head := UnicodeNotation(value) + " = ";
      var s := CaptionWith(value, captions, blockName, formatComma);
      var stored := captions.Some? && value in captions.value;
      |head| <= |s| && s[..|head|] == head &&
      (stored ==> s[|head|..] == captions.value[value]) &&
      (!stored && blockName(value).Some? ==> s[|head|..] == blockName(value).value) &&
      (!stored && blockName(value).None? ==> s[|head|..] == "decimal " + formatComma(value))
  {
  }

  /** `captionGet(value)` itself, with the generated block table. */
  function CaptionGet(value: int, captions: Option<map<int, string>>, formatComma: int -> string): string
    requires IsJavaInt(value)
  {
    CaptionWith(value, captions, BlockName, formatComma)
  }

  /** Without a stored caption, the text after the notation is the name of
      the one block holding the character, or "decimal" and its number when
      no block holds it. */
  lemma CaptionGetSpec(value: int, captions: Option<map<int, string>>, formatComma: int -> string)
    requires IsJavaInt(value)
    ensures var head := UnicodeNotation(value) + " = ";
      var s := CaptionGet(value, captions, formatComma);
      var stored := captions.Some? && value in captions.value;
      |head| <= |s| && s[..|head|] == head &&
      (stored ==> s[|head|..] == captions.value[value]) &&
      (forall i | 0 <= i < |BlockTable| && Holds(BlockTable[i], value) ::
         !stored ==> s[|head|..] == BlockTable[i].name) &&
      ((forall i | 0 <= i < |BlockTable| :: !Holds(BlockTable[i], value)) ==>
         !stored ==> s[|head|..] == "decimal " + formatComma(value))
  {
    BlockNameSpec(value);
    CaptionWithSpec(value, captions, BlockName, formatComma);
  }
}
