/** The CJK part of the caption generator (`cjkNewWords`, `cjkNewCodes`,
    `cjkNewEntry` and the caption assembly of `cjkBegin`): the readings and
    variants of each ideograph are gathered into a list without duplicates,
    and each list is then sorted and joined into one caption. */
module Cjk {
  import opened JavaLang
  import opened Notation
  import opened LexOrder
  import PlainText

  /** The tag that sorts variants after every reading. */
  const VARIANT_TAG: string := "Z:"

  /** The language tags of the six reading fields. */
  const READING_TAGS: seq<string> := ["C:", "J:", "S:", "K:", "M:", "V:"]

  /** The tag `cjkBegin` gives the words of a field of the readings file,
      or None for a field it ignores. */
  function ReadingTag(field: string): (t: Option<string>)
    ensures t.Some? ==> t.value in READING_TAGS
  {
    if field == "kCantonese" then Some("C:")
    else if field == "kJapaneseKun" then Some("J:")
    else if field == "kJapaneseOn" then Some("S:")
    else if field == "kKorean" then Some("K:")
    else if field == "kMandarin" then Some("M:")
    else if field == "kVietnamese" then Some("V:")
    else None
  }

  /** Every reading tag sorts before the variant tag, and tags are two
      characters without a space. */
  lemma TagsOrdered(t: string)
    requires t in READING_TAGS
    ensures |t| == 2 && t[0] != ' ' && t[1] != ' ' && t != VARIANT_TAG
    ensures LexLess(t, VARIANT_TAG)
  {
    assert t[0] < VARIANT_TAG[0];
  }

  // ---------------------------------------------------------------------
  // Finding words and notations in a field value

  /** The words `[A-Za-z]+` finds in `s`, left to right: its maximal runs
      of ASCII letters. */
  function Words(s: string): (r: seq<string>)
    ensures forall i | 0 <= i < |r| :: r[i] != [] && All(r[i], IsAsciiLetter)
    decreases |s|
  {
    if s == [] then []
    else if !IsAsciiLetter(s[0]) then Words(s[1..])
    else
      var (w, rest) := Span(s, IsAsciiLetter);
      assert w != [];
      [w] + Words(rest)
  }

  /** A run of letters is one word. */
  lemma WordsOfRun(w: string)
    requires w != [] && All(w, IsAsciiLetter)
    ensures Words(w) == [w]
  {
    SpanOf(w, [], IsAsciiLetter);
    assert w + [] == w;
  }

  /** A character that is not a letter separates the words before it from
      those after it. */
  lemma {:induction false} WordsSplit(a: string, c: char, b: string)
    requires !IsAsciiLetter(c)
    ensures Words(a + [c] + b) == Words(a) + Words(b)
    decreases |a|, 1
  {
    var s := a + [c] + b;
    if a == [] {
      assert s == [c] + b && s[1..] == b;
    } else if !IsAsciiLetter(a[0]) {
      assert s[0] == a[0] && s[1..] == a[1..] + [c] + b;
      WordsSplit(a[1..], c, b);
    } else {
      WordsSplitRun(a, c, b);
    }
  }

  /** `WordsSplit` when `a` starts with a letter: the first word of `a`
      is the first word of the whole text. */
  lemma {:induction false} WordsSplitRun(a: string, c: char, b: string)
    requires !IsAsciiLetter(c) && a != [] && IsAsciiLetter(a[0])
    ensures Words(a + [c] + b) == Words(a) + Words(b)
    decreases |a|, 0
  {
    var s := a + [c] + b;
    var (w, rest) := Span(a, IsAsciiLetter);
    assert s[0] == a[0];
    if rest == [] {
      assert a == w;
      SpanOf(a, [c] + b, IsAsciiLetter);
      assert s == a + ([c] + b);
      assert Words(s) == [a] + Words([c] + b);
      assert ([c] + b)[1..] == b;
      assert Words([c] + b) == Words(b);
      WordsOfRun(a);
    } else {
      SpanOf(w, rest + [c] + b, IsAsciiLetter);
      assert s == w + (rest + [c] + b);
      assert Words(s) == [w] + Words(rest + [c] + b);
      assert Words(a) == [w] + Words(rest);
      WordsSplit(rest, c, b);
    }
  }

  /** The digits of a notation: one to six hexadecimal digits. */
  predicate IsHexRun(h: string) {
    1 <= |h| <= 6 && forall i | 0 <= i < |h| :: IsHexDigit(h[i])
  }

  /** The hexadecimal digits of each `U\+[0-9A-Fa-f]{1,6}` found in `s`,
      left to right; the digit run is greedy and stops after six digits. */
  function Codes(s: string): (r: seq<string>)
    ensures forall i | 0 <= i < |r| :: IsHexRun(r[i])
    decreases |s|
  {
    if |s| >= 3 && s[0] == 'U' && s[1] == '+' && IsHexDigit(s[2]) then
      var h := Span(s[2..if |s| < 8 then |s| else 8], IsHexDigit).0;
      assert h != [];
      [h] + Codes(s[2 + |h|..])
    else if s == [] then []
    else Codes(s[1..])
  }

  /** A notation with one to six digits, not followed by a seventh digit,
      is found and the search goes on after it. */
  lemma CodesOf(h: string, t: string)
    requires IsHexRun(h)
    requires |h| == 6 || t == [] || !IsHexDigit(t[0])
    ensures Codes("U+" + h + t) == [h] + Codes(t)
  {
    var s := "U+" + h + t;
    var m := if |s| < 8 then |s| else 8;
    NotationParts(h, t);
    CodesAt(s, h, t[..m - 2 - |h|]);
  }

  /** How the search cuts "U+", the digits and what follows. */
  lemma NotationParts(h: string, t: string)
    requires IsHexRun(h)
    requires |h| == 6 || t == [] || !IsHexDigit(t[0])
    ensures var s := "U+" + h + t;
      var m := if |s| < 8 then |s| else 8;
      var k := m - 2 - |h|;
      |s| >= 3 && s[0] == 'U' && s[1] == '+' && 0 <= k <= |t| &&
      s[2..m] == h + t[..k] && s[2 + |h|..] == t &&
      (t[..k] == [] || !IsHexDigit(t[..k][0]))
  {
    var s := "U+" + h + t;
    var m := if |s| < 8 then |s| else 8;
    var k := m - 2 - |h|;
    var ht := h + t;
    assert s == "U+" + ht;
    assert s[2..] == ht;
    assert ht[..|h| + k] == h + t[..k];
    assert k > 0 ==> t[..k][0] == t[0];
  }

  lemma CodesAt(s: string, h: string, tail: string)
    requires |s| >= 3 && s[0] == 'U' && s[1] == '+' && IsHexRun(h)
    requires s[2..if |s| < 8 then |s| else 8] == h + tail
    requires tail == [] || !IsHexDigit(tail[0])
    ensures Codes(s) == [h] + Codes(s[2 + |h|..])
  {
    assert s[2] == h[0];
    SpanOf(h, tail, IsHexDigit);
  }

  /** A position that does not start a notation is skipped. */
  lemma CodesSkip(c: char, t: string)
    requires !(c == 'U' && |t| >= 2 && t[0] == '+' && IsHexDigit(t[1]))
    ensures Codes([c] + t) == Codes(t)
  {
    assert ([c] + t)[1..] == t;
  }

  // ---------------------------------------------------------------------
  // List entries

  /** `tag` and the word with its first letter upper-cased and the rest
      lower-cased, as `cjkNewWords` enters it. */
  function ReadingEntry(tag: string, word: string): string
    requires word != []
  {
    tag + [ToUpper(word[0])] + LowerString(word[1..])
  }

  /** The entries `cjkNewWords` makes of the words found. */
  function ReadingEntries(tag: string, words: seq<string>): (r: seq<string>)
    requires forall i | 0 <= i < |words| :: words[i] != []
    ensures |r| == |words|
  {
    seq(|words|, i requires 0 <= i < |words| => ReadingEntry(tag, words[i]))
  }

  /** The entry `cjkNewCodes` makes of the digits `hex` of one notation:
      the notation upper-cased, its "U+" replaced by as many zeros as bring
      the digits to eight, behind the variant tag. */
  function VariantEntry(hex: string): string
    requires 1 <= |hex| <= 6
  {
    var word := UpperString("U+" + hex);
    VARIANT_TAG + "00000000"[|word| - 2..] + word[2..]
  }

  predicate Letters(s: string) {
    forall i | 0 <= i < |s| :: IsAsciiLetter(s[i])
  }

  predicate UpperHexDigits(s: string) {
    forall i | 0 <= i < |s| :: IsUpperHexDigit(s[i])
  }

  /** A reading entry: a reading tag and at least one letter. */
  predicate IsReadingEntry(w: string) {
    |w| >= 3 && w[..2] in READING_TAGS && Letters(w[2..])
  }

  /** A variant entry: the variant tag and eight upper-case digits whose
      value has at most six digits. */
  predicate IsVariantEntry(w: string) {
    |w| == 10 && w[..2] == VARIANT_TAG && UpperHexDigits(w[2..]) &&
    HexValue(w[2..]) < 0x100_0000
  }

  predicate IsEntry(w: string) {
    |w| >= 3 && (IsReadingEntry(w) || IsVariantEntry(w))
  }

  predicate AllEntries(ws: seq<string>) {
    forall i | 0 <= i < |ws| :: IsEntry(ws[i])
  }

  /** The tag tells the two kinds of entry apart. */
  lemma EntryKind(w: string)
    requires IsEntry(w)
    ensures w[..2] == VARIANT_TAG <==> IsVariantEntry(w)
    ensures w[..2] != VARIANT_TAG <==> IsReadingEntry(w)
  {
    if IsReadingEntry(w) {
      TagsOrdered(w[..2]);
    }
  }

  /** A reading entry keeps the tag, capitalises the word and lower-cases
      the rest of it. */
  lemma ReadingEntryShape(tag: string, word: string)
    requires tag in READING_TAGS && word != [] && All(word, IsAsciiLetter)
    ensures var e := ReadingEntry(tag, word);
      IsReadingEntry(e) && e[..2] == tag && |e| == |word| + 2 &&
      'A' <= e[2] <= 'Z' && (forall i | 3 <= i < |e| :: 'a' <= e[i] <= 'z') &&
      LowerString(e[2..]) == LowerString(word)
  {
    var e := ReadingEntry(tag, word);
    assert |tag| == 2 && e[..2] == tag;
    var body := e[2..];
    assert body == [ToUpper(word[0])] + LowerString(word[1..]);
    forall i | 0 <= i < |body|
      ensures IsAsciiLetter(body[i]) && ToLower(body[i]) == ToLower(word[i])
      ensures i > 0 ==> 'a' <= body[i] <= 'z'
    {
      CaseAbsorbs(word[i]);
      if i > 0 {
        assert body[i] == ToLower(word[1..][i - 1]);
      }
    }
    assert LowerString(body) == LowerString(word);
  }

  /** A variant entry is ten characters: the variant tag and eight
      upper-case digits with the value of the notation, which has at most
      six digits. */
  lemma VariantEntryShape(hex: string)
    requires IsHexRun(hex)
    ensures var e := VariantEntry(hex);
      IsVariantEntry(e) && HexValue(e[2..]) == HexValue(hex)
  {
    var d := Zeros(8 - |hex|) + UpperString(hex);
    VariantEntryParts(hex);
    PaddedDigits(hex);
    TagThen(VARIANT_TAG, d);
  }

  lemma VariantEntryParts(hex: string)
    requires 1 <= |hex| <= 6
    ensures VariantEntry(hex) == VARIANT_TAG + (Zeros(8 - |hex|) + UpperString(hex))
  {
    var word := UpperString("U+" + hex);
    assert word[2..] == UpperString(hex);
    assert "00000000"[|word| - 2..] == Zeros(8 - |hex|);
  }

  /** The eight digits of a variant entry. */
  lemma PaddedDigits(hex: string)
    requires IsHexRun(hex)
    ensures var d := Zeros(8 - |hex|) + UpperString(hex);
      |d| == 8 && UpperHexDigits(d) &&
      HexValue(d) == HexValue(hex) < 0x100_0000
  {
    HexValueUpper(hex);
    HexValueLeadingZeros(8 - |hex|, UpperString(hex));
    HexValueBound(hex);
    Pow16Monotone(|hex|, 6);
    assert Pow16(6) == 0x100_0000;
  }

  /** A two-character tag followed by a body. */
  lemma TagThen(tag: string, body: string)
    requires |tag| == 2
    ensures var e := tag + body; |e| == 2 + |body| && e[..2] == tag && e[2..] == body
  {
  }

  /** Among variant entries string order is numeric order, which is why
      the digits are padded to eight. */
  lemma VariantOrder(a: string, b: string)
    requires IsVariantEntry(a) && IsVariantEntry(b)
    ensures LexLess(a, b) <==> HexValue(a[2..]) < HexValue(b[2..])
  {
    assert a[0] == b[0] && a[1] == b[1];
    assert a[1..][1..] == a[2..] && b[1..][1..] == b[2..];
    assert LexLess(a, b) <==> LexLess(a[1..], b[1..]);
    assert LexLess(a[1..], b[1..]) <==> LexLess(a[2..], b[2..]);
    HexLexOrder(a[2..], b[2..]);
  }

  /** For upper-case numerals of the same length, string order is the
      order of their values. */
  lemma {:induction false} HexLexOrder(a: string, b: string)
    requires |a| == |b| && UpperHexDigits(a) && UpperHexDigits(b)
    ensures LexLess(a, b) <==> HexValue(a) < HexValue(b)
    decreases |a|
  {
    if a != [] {
      HexValueFront(a);
      HexValueFront(b);
      HexValueBound(a[1..]);
      HexValueBound(b[1..]);
      var da, db := HexDigitValue(a[0]), HexDigitValue(b[0]);
      var p := Pow16(|a| - 1);
      if a[0] < b[0] {
        assert da < db;
        FrontDigitLess(da, db, HexValue(a[1..]), HexValue(b[1..]), p);
      } else if b[0] < a[0] {
        assert db < da;
        FrontDigitLess(db, da, HexValue(b[1..]), HexValue(a[1..]), p);
      } else {
        HexLexOrder(a[1..], b[1..]);
      }
    }
  }

  lemma FrontDigitLess(x: int, y: int, rx: int, ry: int, p: int)
    requires x < y && 0 <= rx < p && 0 <= ry
    ensures x * p + rx < y * p + ry
  {
    assert y * p - x * p == (y - x) * p;
    assert (y - x) * p >= p by {
      assert (y - x - 1) * p >= 0;
    }
  }

  /** The variant entries `cjkNewCodes` makes of the notations found, in
      order, leaving out a notation of the ideograph itself. */
  function VariantEntries(code: int, hexes: seq<string>): (r: seq<string>)
    requires forall i | 0 <= i < |hexes| :: IsHexRun(hexes[i])
    decreases |hexes|
  {
    if hexes == [] then []
    else
      var n := |hexes| - 1;
      assert IsHexRun(hexes[n]);
      VariantEntries(code, hexes[..n]) +
      (if HexValue(hexes[n]) == code then [] else [VariantEntry(hexes[n])])
  }

  lemma VariantEntriesSnoc(code: int, hexes: seq<string>, i: int)
    requires forall k | 0 <= k < |hexes| :: IsHexRun(hexes[k])
    requires 0 <= i < |hexes|
    ensures VariantEntries(code, hexes[..i + 1]) ==
      VariantEntries(code, hexes[..i]) +
      (if HexValue(hexes[i]) == code then [] else [VariantEntry(hexes[i])])
  {
    assert hexes[..i + 1][..i] == hexes[..i];
  }

  /** Every entry is a variant entry naming a character other than `code`. */
  predicate VariantsOf(r: seq<string>, code: int) {
    forall k | 0 <= k < |r| :: IsVariantEntry(r[k]) && HexValue(r[k][2..]) != code
  }

  /** Every variant entry is well formed and names another character. */
  lemma {:induction false} VariantEntriesWellFormed(code: int, hexes: seq<string>)
    requires forall i | 0 <= i < |hexes| :: IsHexRun(hexes[i])
    ensures VariantsOf(VariantEntries(code, hexes), code)
    decreases |hexes|
  {
    if hexes != [] {
      var n := |hexes| - 1;
      var q := VariantEntries(code, hexes[..n]);
      VariantEntriesWellFormed(code, hexes[..n]);
      if HexValue(hexes[n]) != code {
        VariantEntryShape(hexes[n]);
        VariantsOfAppend(q, VariantEntry(hexes[n]), code);
      } else {
        assert VariantEntries(code, hexes) == q + [];
      }
    }
  }

  lemma VariantsOfAppend(q: seq<string>, x: string, code: int)
    requires VariantsOf(q, code) && IsVariantEntry(x) && HexValue(x[2..]) != code
    ensures VariantsOf(q + [x], code)
  {
    assert forall k | 0 <= k < |q| :: (q + [x])[k] == q[k];
  }

  /** `e` is the variant entry of one of the notations `hexes` that names
      a character other than `code`. */
  predicate NamesVariant(code: int, hexes: seq<string>, e: string)
    requires forall i | 0 <= i < |hexes| :: IsHexRun(hexes[i])
  {
    exists i | 0 <= i < |hexes| && IsHexRun(hexes[i]) :: HexValue(hexes[i]) != code && e == VariantEntry(hexes[i])
  }

  /** The variant entries are exactly those of the notations found that
      name another character. */
  lemma {:induction false} VariantEntriesExact(code: int, hexes: seq<string>, e: string)
    requires forall i | 0 <= i < |hexes| :: IsHexRun(hexes[i])
    ensures e in VariantEntries(code, hexes) <==> NamesVariant(code, hexes, e)
    decreases |hexes|
  {
    if hexes != [] {
      var n := |hexes| - 1;
      var init := hexes[..n];
      var q := VariantEntries(code, init);
      var r := VariantEntries(code, hexes);
      VariantEntriesExact(code, init, e);
      var keep := HexValue(hexes[n]) != code;
      var last := VariantEntry(hexes[n]);
      if keep {
        assert r == q + [last];
      } else {
        assert r == q + [];
      }
      if e in r {
        if e in q {
          assert NamesVariant(code, init, e);
          var i :| 0 <= i < |init| && HexValue(init[i]) != code && e == VariantEntry(init[i]);
          assert hexes[i] == init[i];
        } else {
          assert keep && e == last;
        }
        assert NamesVariant(code, hexes, e);
      }
      if NamesVariant(code, hexes, e) {
        var i :| 0 <= i < |hexes| && HexValue(hexes[i]) != code && e == VariantEntry(hexes[i]);
        if i < n {
          assert init[i] == hexes[i];
          assert NamesVariant(code, init, e);
          assert e in q;
        } else {
          assert i == n;
        }
        assert e in r;
      }
    }
  }



  // ---------------------------------------------------------------------
  // The word lists

  predicate NoDuplicates(l: seq<string>) {
    forall i, j | 0 <= i < j < |l| :: l[i] != l[j]
  }

  /** A list as the generator keeps it: not empty, without duplicates,
      made of entries. */
  predicate GoodList(l: seq<string>) {
    l != [] && NoDuplicates(l) && AllEntries(l)
  }

  predicate AllGood(m: map<int, seq<string>>) {
    forall k | k in m :: GoodList(m[k])
  }

  /** `cjkNewEntry` on the map of lists: the list of `code`, created empty
      when missing, gains `text` unless it holds it already. */
  function Entered(m: map<int, seq<string>>, code: int, text: string): map<int, seq<string>> {
    var list := if code in m then m[code] else [];
    m[code := if text in list then list else list + [text]]
  }

  /** After an entry the list of `code` exists and holds exactly its old
      words and `text`, in the old order with `text` at most appended, and
      without a duplicate if it had none; every other list is untouched. */
  lemma EnteredSpec(m: map<int, seq<string>>, code: int, text: string)
    ensures var r := Entered(m, code, text);
      r.Keys == m.Keys + {code} &&
      (forall k | k in m && k != code :: r[k] == m[k]) &&
      (forall w :: w in r[code] <==> w == text || (code in m && w in m[code])) &&
      (code in m ==> m[code] <= r[code] && |r[code]| <= |m[code]| + 1) &&
      (code !in m ==> r[code] == [text]) &&
      (code in m && NoDuplicates(m[code]) ==> NoDuplicates(r[code]))
  {
  }

  /** Entering an entry keeps every list good. */
  lemma EnteredKeepsGood(m: map<int, seq<string>>, code: int, text: string)
    requires AllGood(m)
    requires IsEntry(text)
    ensures AllGood(Entered(m, code, text))
  {
    EnteredSpec(m, code, text);
    var r := Entered(m, code, text);
    if code in m && text !in m[code] {
      assert r[code] == m[code] + [text];
    }
  }

  /** The entries `texts` entered one after the other. */
  function EnterAll(m: map<int, seq<string>>, code: int, texts: seq<string>): map<int, seq<string>>
    decreases |texts|
  {
    if texts == [] then m
    else Entered(EnterAll(m, code, texts[..|texts| - 1]), code, texts[|texts| - 1])
  }

  /** Entering several entries touches only the list of `code`, which then
      holds exactly its old words and the new entries. */
  lemma {:induction false} EnterAllSpec(m: map<int, seq<string>>, code: int, texts: seq<string>)
    ensures var r := EnterAll(m, code, texts);
      (forall k | k != code :: (k in r <==> k in m)) &&
      (forall k | k in m && k != code :: r[k] == m[k]) &&
      (code in r <==> code in m || texts != []) &&
      (code in r ==> forall w :: w in r[code] <==> w in texts || (code in m && w in m[code]))
    decreases |texts|
  {
    if texts != [] {
      var init := texts[..|texts| - 1];
      var last := texts[|texts| - 1];
      EnterAllSpec(m, code, init);
      EnteredSpec(EnterAll(m, code, init), code, last);
      assert texts == init + [last];
    }
  }

  lemma {:induction false} EnterAllKeepsGood(m: map<int, seq<string>>, code: int, texts: seq<string>)
    requires AllGood(m)
    requires AllEntries(texts)
    ensures AllGood(EnterAll(m, code, texts))
    decreases |texts|
  {
    if texts != [] {
      var init := texts[..|texts| - 1];
      assert forall i | 0 <= i < |init| :: init[i] == texts[i];
      EnterAllKeepsGood(m, code, init);
      EnteredKeepsGood(EnterAll(m, code, init), code, texts[|texts| - 1]);
    }
  }

  lemma EnterAllSnoc(m: map<int, seq<string>>, code: int, texts: seq<string>, text: string)
    ensures EnterAll(m, code, texts + [text]) == Entered(EnterAll(m, code, texts), code, text)
  {
    assert (texts + [text])[..|texts|] == texts;
  }

  /** One entry more of `texts`. */
  lemma EnterAllStep(m: map<int, seq<string>>, code: int, texts: seq<string>, i: int)
    requires 0 <= i < |texts|
    ensures EnterAll(m, code, texts[..i + 1]) == Entered(EnterAll(m, code, texts[..i]), code, texts[i])
  {
    assert texts[..i + 1] == texts[..i] + [texts[i]];
    EnterAllSnoc(m, code, texts[..i], texts[i]);
  }

  /** One notation more: its entry is entered unless it names `code`. */
  lemma NewCodesStep(m: map<int, seq<string>>, code: int, hexes: seq<string>, i: int)
    requires forall k | 0 <= k < |hexes| :: IsHexRun(hexes[k])
    requires 0 <= i < |hexes|
    ensures IsHexRun(hexes[i]) && IsVariantEntry(VariantEntry(hexes[i]))
    ensures HexValue(VariantEntry(hexes[i])[2..]) == HexValue(hexes[i])
    ensures var before := EnterAll(m, code, VariantEntries(code, hexes[..i]));
      EnterAll(m, code, VariantEntries(code, hexes[..i + 1])) ==
      if HexValue(hexes[i]) == code then before
      else Entered(before, code, VariantEntry(hexes[i]))
  {
    assert IsHexRun(hexes[i]);
    VariantEntryShape(hexes[i]);
    VariantEntriesSnoc(code, hexes, i);
    var done := VariantEntries(code, hexes[..i]);
    if HexValue(hexes[i]) != code {
      EnterAllSnoc(m, code, done, VariantEntry(hexes[i]));
    } else {
      assert VariantEntries(code, hexes[..i + 1]) == done + [] == done;
    }
  }

  /** `cjkListMap`: for each ideograph, the list of its words so far. */
  class WordLists {
    var lists: map<int, seq<string>>

    /** Every list is good: not empty, without duplicates, of entries. */
    ghost predicate Valid()
      reads this
    {
      AllGood(lists)
    }

    constructor ()
      ensures lists == map[] && Valid()
    {
      lists := map[];
    }

    /** `cjkNewEntry`. */
    method NewEntry(code: int, text: string)
      modifies this
      ensures lists == Entered(old(lists), code, text)
    {
      if code !in lists {
        lists := lists[code := []];
      }
      if text !in lists[code] {
        lists := lists[code := lists[code] + [text]];
      }
    }

    /** `cjkNewWords`: every word of `text`, in order, entered with `tag`. */
    method NewWords(code: int, text: string, tag: string)
      modifies this
      ensures lists == EnterAll(old(lists), code, ReadingEntries(tag, Words(text)))
    {
      var words := Words(text);
      ghost var entries := ReadingEntries(tag, words);
      var i := 0;
      while i < |words|
        invariant 0 <= i <= |words|
        invariant lists == EnterAll(old(lists), code, entries[..i])
      {
        EnterAllStep(old(lists), code, entries, i);
        NewEntry(code, ReadingEntry(tag, words[i]));
        i := i + 1;
      }
      assert entries[..|words|] == entries;
    }

    /** `cjkNewCodes`: every notation in `text` of a character other than
        `code`, in order, entered as a variant. */
    method NewCodes(code: int, text: string)
      modifies this
      ensures lists == EnterAll(old(lists), code, VariantEntries(code, Codes(text)))
    {
      var hexes := Codes(text);
      var i := 0;
      while i < |hexes|
        invariant 0 <= i <= |hexes|
        invariant lists == EnterAll(old(lists), code, VariantEntries(code, hexes[..i]))
      {
        NewCodesStep(old(lists), code, hexes, i);
        NewCode(code, hexes[i]);
        i := i + 1;
      }
      assert hexes[..|hexes|] == hexes;
    }

    /** The body of the loop of `cjkNewCodes` for one notation: its entry
        is entered unless it names `code` itself. */
    method NewCode(code: int, hex: string)
      requires IsHexRun(hex)
      modifies this
      ensures lists == if HexValue(hex) == code then old(lists)
        else Entered(old(lists), code, VariantEntry(hex))
    {
      VariantEntryShape(hex);
      var word := VariantEntry(hex);
      var value := HexValue(word[2..]);
      if code != value {
        NewEntry(code, word);
      }
    }

    /** One line of the readings file, given as its code, field and value:
        the words of a field of interest, reduced to plain text, are
        entered with the field's tag; other fields are ignored. */
    method AddReading(code: int, field: string, value: string)
      modifies this
      ensures ReadingTag(field).None? ==> lists == old(lists)
      ensures ReadingTag(field).Some? ==>
        lists == EnterAll(old(lists), code,
          ReadingEntries(ReadingTag(field).value, Words(PlainText.PlainTextOf(value))))
    {
      var tag := ReadingTag(field);
      if tag.Some? {
        var plain := PlainText.CheckPlainText(value);
        NewWords(code, plain, tag.value);
      }
    }

    /** One line of the variants file: every notation in the value, reduced
        to plain text, is entered as a variant. */
    method AddVariants(code: int, value: string)
      modifies this
      ensures lists == EnterAll(old(lists), code,
        VariantEntries(code, Codes(PlainText.PlainTextOf(value))))
    {
      var plain := PlainText.CheckPlainText(value);
      NewCodes(code, plain);
    }
  }

  /** Reading and variant lines keep every list good. */
  lemma ReadingKeepsGood(m: map<int, seq<string>>, code: int, tag: string, text: string)
    requires AllGood(m)
    requires tag in READING_TAGS
    ensures AllGood(EnterAll(m, code, ReadingEntries(tag, Words(text))))
  {
    var words := Words(text);
    var entries := ReadingEntries(tag, words);
    forall i | 0 <= i < |entries| ensures IsEntry(entries[i]) {
      ReadingEntryShape(tag, words[i]);
    }
    EnterAllKeepsGood(m, code, entries);
  }

  lemma VariantsKeepGood(m: map<int, seq<string>>, code: int, text: string)
    requires AllGood(m)
    ensures AllGood(EnterAll(m, code, VariantEntries(code, Codes(text))))
  {
    var entries := VariantEntries(code, Codes(text));
    VariantEntriesWellFormed(code, Codes(text));
    assert AllEntries(entries);
    EnterAllKeepsGood(m, code, entries);
  }

  // ---------------------------------------------------------------------
  // Caption assembly

  /** How the caption shows the word `w` of a sorted list when the word
      before it has the tag `tag` (the empty string for the first word): a
      variant as the notation of its number, a reading without its tag when
      that tag was just shown, any other reading whole. */
  function Piece(tag: string, w: string): string
    requires IsEntry(w)
  {
    if w[..2] == VARIANT_TAG then UnicodeNotation(HexValue(w[2..]))
    else if w[..2] == tag then w[2..]
    else w
  }

  /** The piece of word `i` of a sorted list, after the tag of word
      `i - 1`. */
  function PieceOf(words: seq<string>, i: int): string
    requires AllEntries(words) && 0 <= i < |words|
  {
    Piece(if i == 0 then "" else words[i - 1][..2], words[i])
  }

  /** The piece of each word of a sorted list. */
  function Pieces(words: seq<string>): (r: seq<string>)
    requires AllEntries(words)
    ensures |r| == |words|
  {
    seq(|words|, i requires 0 <= i < |words| => PieceOf(words, i))
  }

  /** The pieces with one space between each two. */
  function JoinSpaced(ps: seq<string>): string
    decreases |ps|
  {
    if ps == [] then []
    else if |ps| == 1 then ps[0]
    else JoinSpaced(ps[..|ps| - 1]) + " " + ps[|ps| - 1]
  }

  predicate NotSpace(c: char) {
    c != ' '
  }

  /** The inverse of joining: a text cut at every space. */
  function SplitSpaces(s: string): (r: seq<string>)
    ensures |r| >= 1
    decreases |s|
  {
    var (a, b) := BackSpan(s, NotSpace);
    if a == [] then [b] else SplitSpaces(a[..|a| - 1]) + [b]
  }

  /** Pieces without spaces are recovered from the joined text. */
  lemma {:induction false} SplitJoin(ps: seq<string>)
    requires |ps| >= 1 && forall i | 0 <= i < |ps| :: All(ps[i], NotSpace)
    ensures SplitSpaces(JoinSpaced(ps)) == ps
    decreases |ps|
  {
    var last := ps[|ps| - 1];
    if |ps| == 1 {
      BackSpanOf([], last, NotSpace);
      assert [] + last == last;
    } else {
      var init := ps[..|ps| - 1];
      var j := JoinSpaced(init);
      BackSpanOf(j + " ", last, NotSpace);
      assert (j + " ")[..|j|] == j;
      SplitJoin(init);
      assert init + [last] == ps;
    }
  }

  lemma JoinStep(ps: seq<string>, i: int)
    requires 0 <= i < |ps|
    ensures JoinSpaced(ps[..i + 1]) ==
      if i == 0 then ps[0] else JoinSpaced(ps[..i]) + " " + ps[i]
  {
    assert ps[..i + 1][..i] == ps[..i];
  }

  lemma PieceAt(words: seq<string>, i: int)
    requires AllEntries(words) && 0 <= i < |words|
    ensures Pieces(words)[i] == Piece(if i == 0 then "" else words[i - 1][..2], words[i])
  {
    assert Pieces(words)[i] == PieceOf(words, i);
  }

  /** Sorting keeps every word an entry. */
  lemma SortedEntries(list: seq<string>)
    requires AllEntries(list)
    ensures AllEntries(SortWords(list))
  {
    var w := SortWords(list);
    forall i | 0 <= i < |w| ensures IsEntry(w[i]) {
      assert w[i] in multiset(w);
      var j :| 0 <= j < |list| && list[j] == w[i];
    }
  }

  /** The caption-assembly loop of `cjkBegin` for one ideograph: the list
      is sorted (`Collections.sort`), then its words are joined with spaces,
      each shown as `Piece` says. */
  method AssembleCaption(list: seq<string>) returns (caption: string)
    requires AllEntries(list)
    ensures AllEntries(SortWords(list))
    ensures caption == JoinSpaced(Pieces(SortWords(list)))
  {
    var words := SortWords(list);
    SortedEntries(list);
    caption := JoinPieces(words);
  }

  /** The loop over the sorted words, remembering the tag of the word
      before. */
  method JoinPieces(words: seq<string>) returns (caption: string)
    requires AllEntries(words)
    ensures caption == JoinSpaced(Pieces(words))
  {
    ghost var pieces := Pieces(words);
    caption := "";
    var tag := "";
    var i := 0;
    while i < |words|
      invariant 0 <= i <= |words|
      invariant caption == JoinSpaced(pieces[..i])
      invariant tag == if i == 0 then "" else words[i - 1][..2]
    {
      JoinStep(pieces, i);
      PieceAt(words, i);
      var value := words[i];
      var shown := Piece(tag, value);
      assert shown == pieces[i];
      if i > 0 {
        caption := caption + " " + shown;
      } else {
        caption := shown;
      }
      assert caption == JoinSpaced(pieces[..i + 1]);
      tag := value[..2];
      i := i + 1;
    }
    assert pieces[..|words|] == pieces;
  }

  /** No piece holds a space: a reading is a tag and letters, a variant a
      "U+" notation. */
  lemma PieceNoSpace(tag: string, w: string)
    requires IsEntry(w)
    ensures All(Piece(tag, w), NotSpace)
  {
    if w[..2] == VARIANT_TAG {
      UnicodeNotationShape(HexValue(w[2..]));
      var n := UnicodeNotation(HexValue(w[2..]));
      assert n[0] == n[..2][0] && n[1] == n[..2][1];
    } else {
      TagsOrdered(w[..2]);
      assert w[0] == w[..2][0] && w[1] == w[..2][1];
      assert forall i | 2 <= i < |w| :: w[i] == w[2..][i - 2];
    }
  }

  /** The caption cut at its spaces gives back the piece of every word. */
  lemma CaptionRoundTrip(list: seq<string>)
    requires list != [] && AllEntries(list)
    ensures AllEntries(SortWords(list))
    ensures SplitSpaces(JoinSpaced(Pieces(SortWords(list)))) == Pieces(SortWords(list))
  {
    var words := SortWords(list);
    SortedEntries(list);
    assert |words| == |list| by {
      assert |multiset(words)| == |multiset(list)|;
    }
    PiecesRoundTrip(words);
  }

  lemma PiecesRoundTrip(words: seq<string>)
    requires words != [] && AllEntries(words)
    ensures SplitSpaces(JoinSpaced(Pieces(words))) == Pieces(words)
  {
    var ps := Pieces(words);
    forall i | 0 <= i < |ps| ensures All(ps[i], NotSpace) {
      PieceNoSpace(if i == 0 then "" else words[i - 1][..2], words[i]);
    }
    SplitJoin(ps);
  }

  /** In a sorted list of entries a reading shows its tag exactly when no
      earlier word has that tag; otherwise it shows only its word. */
  lemma TagShownOnce(words: seq<string>, j: int)
    requires SortedLex(words) && AllEntries(words)
    requires 0 <= j < |words| && IsReadingEntry(words[j])
    ensures Pieces(words)[j] == words[j] <==>
      forall i | 0 <= i < j :: words[i][..2] != words[j][..2]
    ensures Pieces(words)[j] == words[j] || Pieces(words)[j] == words[j][2..]
  {
    var t := words[j][..2];
    TagsOrdered(t);
    if j > 0 {
      var p := words[j - 1][..2];
      if p != t {
        forall i | 0 <= i < j ensures words[i][..2] != t {
          if words[i][..2] == t {
            LexTotal(p, t);
            if LexLess(p, t) {
              TagOrder(words[j - 1], words[i]);
            } else {
              TagOrder(words[j], words[j - 1]);
            }
          }
        }
      }
    }
  }

  /** Variants come after every reading in a sorted list of entries. */
  lemma VariantsLast(words: seq<string>, i: int, j: int)
    requires SortedLex(words) && AllEntries(words)
    requires 0 <= i < j < |words| && IsVariantEntry(words[i])
    ensures IsVariantEntry(words[j])
  {
    if !IsVariantEntry(words[j]) {
      TagsOrdered(words[j][..2]);
      TagOrder(words[j], words[i]);
    }
  }

  /** Distinct variants of a sorted list of entries come in ascending order
      of their character numbers. */
  lemma VariantsAscending(words: seq<string>, i: int, j: int)
    requires SortedLex(words)
    requires 0 <= i < j < |words| && IsVariantEntry(words[i]) && IsVariantEntry(words[j])
    requires words[i] != words[j]
    ensures HexValue(words[i][2..]) < HexValue(words[j][2..])
  {
    VariantOrder(words[i], words[j]);
    VariantOrder(words[j], words[i]);
    LexTotal(words[i], words[j]);
  }
}
