/** The caption generator (`CharMapParse6`): standard names from
    UnicodeData.txt, then generated Hangul syllable names, then CJK
    readings and variants, each later source replacing the captions of the
    earlier ones, written out as `U+XXXX = caption` lines in ascending
    order of character number. */
module Generator {
  import opened JavaLang
  import opened Notation
  import opened Maps
  import Hangul
  import Cjk
  import UniData
  import LexOrder
  import PlainText

  // ---------------------------------------------------------------------
  // What each source contributes

  /** What `uniBegin` makes of each line of UnicodeData.txt. */
  function Parsed(lines: seq<string>): (r: seq<Option<(int, string)>>)
    ensures |r| == |lines| && forall i | 0 <= i < |lines| :: r[i] == UniData.UniCaption(lines[i])
  {
    seq(|lines|, i requires 0 <= i < |lines| => UniData.UniCaption(lines[i]))
  }

  /** The captions after `uniBegin` has read `lines`, starting from `m`:
      each matching line sets the caption of its number. */
  function UniCaptions(m: map<int, string>, lines: seq<string>): map<int, string> {
    PutAll(m, Parsed(lines))
  }

  /** Every number a line names is below 0x1000000. */
  lemma UniCaptionsKeys(m: map<int, string>, lines: seq<string>)
    requires forall k | k in m :: 0 <= k < 0x100_0000
    ensures forall k | k in UniCaptions(m, lines) :: 0 <= k < 0x100_0000
  {
    PutAllKeys(m, Parsed(lines), 0x100_0000);
  }

  /** A number that some line names takes the caption of the last such
      line. */
  lemma UniCaptionsLast(m: map<int, string>, lines: seq<string>, k: int)
    requires 0 <= k < |lines| && UniData.UniCaption(lines[k]).Some?
    requires forall j | k < j < |lines| :: (UniData.UniCaption(lines[j]).None? ||
      UniData.UniCaption(lines[j]).value.0 != UniData.UniCaption(lines[k]).value.0)
    ensures var (code, caption) := UniData.UniCaption(lines[k]).value;
      code in UniCaptions(m, lines) && UniCaptions(m, lines)[code] == caption
  {
    PutAllLast(m, Parsed(lines), k);
  }

  /** A number no line names keeps the caption it had, or stays without. */
  lemma UniCaptionsUnnamed(m: map<int, string>, lines: seq<string>, v: int)
    requires forall j | 0 <= j < |lines| :: (UniData.UniCaption(lines[j]).None? ||
      UniData.UniCaption(lines[j]).value.0 != v)
    ensures v in UniCaptions(m, lines) <==> v in m
    ensures v in m ==> UniCaptions(m, lines)[v] == m[v]
  {
    PutAllUntouched(m, Parsed(lines), v);
  }

  /** The caption `hanBegin` gives every syllable. */
  function HangulCaptions(): map<int, string> {
    SyllablesCaptioned();
    Tabulate(Hangul.HangulCaption, Hangul.FIRST_SYLLABLE, Hangul.LAST_SYLLABLE + 1)
  }

  lemma SyllablesCaptioned()
    ensures forall v | Hangul.FIRST_SYLLABLE <= v < Hangul.LAST_SYLLABLE + 1 :: Hangul.HangulCaption.requires(v)
  {
    forall v | Hangul.FIRST_SYLLABLE <= v < Hangul.LAST_SYLLABLE + 1
      ensures Hangul.HangulCaption.requires(v)
    {
      assert Hangul.IsSyllable(v);
    }
  }

  /** A line of a Unihan file as its pattern splits it: the number of the
      ideograph, the field name and the value. */
  datatype UnihanRecord = UnihanRecord(code: int, field: string, value: string)

  /** The number is read from one to six hexadecimal digits. */
  predicate ValidRecords(rs: seq<UnihanRecord>) {
    forall i | 0 <= i < |rs| :: 0 <= rs[i].code < 0x100_0000
  }

  /** The lists after the readings `rs`, starting from `m`. */
  function ReadAll(m: map<int, seq<string>>, rs: seq<UnihanRecord>): map<int, seq<string>>
    decreases |rs|
  {
    if rs == [] then m
    else
      var before := ReadAll(m, rs[..|rs| - 1]);
      var r := rs[|rs| - 1];
      match Cjk.ReadingTag(r.field)
      case None => before
      case Some(tag) =>
        Cjk.EnterAll(before, r.code, Cjk.ReadingEntries(tag, Cjk.Words(PlainText.PlainTextOf(r.value))))
  }

  /** The lists after the variants `rs`, starting from `m`. */
  function VaryAll(m: map<int, seq<string>>, rs: seq<UnihanRecord>): map<int, seq<string>>
    decreases |rs|
  {
    if rs == [] then m
    else
      var before := VaryAll(m, rs[..|rs| - 1]);
      var r := rs[|rs| - 1];
      Cjk.EnterAll(before, r.code, Cjk.VariantEntries(r.code, Cjk.Codes(PlainText.PlainTextOf(r.value))))
  }

  /** The word lists `cjkBegin` builds from both files. */
  function WordListsOf(readings: seq<UnihanRecord>, variants: seq<UnihanRecord>): map<int, seq<string>> {
    VaryAll(ReadAll(map[], readings), variants)
  }

  /** Every key is a number below 0x1000000, and every list is good. */
  predicate GoodLists(m: map<int, seq<string>>) {
    Cjk.AllGood(m) && forall k | k in m :: 0 <= k < 0x100_0000
  }

  lemma {:induction false} ReadAllGood(m: map<int, seq<string>>, rs: seq<UnihanRecord>)
    requires GoodLists(m) && ValidRecords(rs)
    ensures GoodLists(ReadAll(m, rs))
    decreases |rs|
  {
    if rs != [] {
      var front := rs[..|rs| - 1];
      var r := rs[|rs| - 1];
      ReadAllGood(m, front);
      var before := ReadAll(m, front);
      match Cjk.ReadingTag(r.field)
      case None =>
      case Some(tag) =>
        var entries := Cjk.ReadingEntries(tag, Cjk.Words(PlainText.PlainTextOf(r.value)));
        Cjk.ReadingKeepsGood(before, r.code, tag, PlainText.PlainTextOf(r.value));
        Cjk.EnterAllSpec(before, r.code, entries);
    }
  }

  lemma {:induction false} VaryAllGood(m: map<int, seq<string>>, rs: seq<UnihanRecord>)
    requires GoodLists(m) && ValidRecords(rs)
    ensures GoodLists(VaryAll(m, rs))
    decreases |rs|
  {
    if rs != [] {
      var front := rs[..|rs| - 1];
      var r := rs[|rs| - 1];
      VaryAllGood(m, front);
      var before := VaryAll(m, front);
      var text := PlainText.PlainTextOf(r.value);
      Cjk.VariantsKeepGood(before, r.code, text);
      Cjk.EnterAllSpec(before, r.code, Cjk.VariantEntries(r.code, Cjk.Codes(text)));
    }
  }

  /** The lists `cjkBegin` builds are all good, whatever the files hold. */
  lemma WordListsGood(readings: seq<UnihanRecord>, variants: seq<UnihanRecord>)
    requires ValidRecords(readings) && ValidRecords(variants)
    ensures GoodLists(WordListsOf(readings, variants))
  {
    ReadAllGood(map[], readings);
    VaryAllGood(ReadAll(map[], readings), variants);
  }

  /** The caption `cjkBegin` assembles from one list. */
  function CjkCaption(list: seq<string>): string
    requires Cjk.AllEntries(list)
  {
    Cjk.SortedEntries(list);
    Cjk.JoinSpaced(Cjk.Pieces(LexOrder.SortWords(list)))
  }

  function CjkCaptions(lists: map<int, seq<string>>): (r: map<int, string>)
    requires Cjk.AllGood(lists)
    ensures forall k :: k in r <==> k in lists
  {
    map k | k in lists :: CjkCaption(lists[k])
  }

  /** The captions of the three sources, each later one replacing the
      captions of the earlier ones. */
  function FinalCaptions(unicodeData: seq<string>, readings: seq<UnihanRecord>,
                         variants: seq<UnihanRecord>): (r: map<int, string>)
    requires ValidRecords(readings) && ValidRecords(variants)
    ensures forall k | k in r :: 0 <= k < 0x100_0000
    ensures JavaKeys(r)
  {
    WordListsGood(readings, variants);
    UniCaptionsKeys(map[], unicodeData);
    UniCaptions(map[], unicodeData) + HangulCaptions() + CjkCaptions(WordListsOf(readings, variants))
  }

  /** A character with a CJK word list takes its CJK caption; otherwise a
      Hangul syllable takes its generated name; otherwise a character
      takes the name of UnicodeData.txt, if it has one. */
  lemma OverrideOrder(unicodeData: seq<string>, readings: seq<UnihanRecord>,
                      variants: seq<UnihanRecord>, v: int)
    requires ValidRecords(readings) && ValidRecords(variants)
    ensures var r := FinalCaptions(unicodeData, readings, variants);
      var lists := WordListsOf(readings, variants);
      var names := UniCaptions(map[], unicodeData);
      (v in r <==> v in lists || Hangul.IsSyllable(v) || v in names) &&
      (v in lists ==> Cjk.AllEntries(lists[v]) && r[v] == CjkCaption(lists[v])) &&
      (v !in lists && Hangul.IsSyllable(v) ==> r[v] == Hangul.HangulCaption(v)) &&
      (v !in lists && !Hangul.IsSyllable(v) && v in names ==> r[v] == names[v])
  {
    WordListsGood(readings, variants);
  }

  // ---------------------------------------------------------------------
  // The output file

  /** `unicodeNotation(charNum) + " = " + charText`. */
  function OutputLine(code: int, caption: string): string
    requires IsJavaInt(code)
  {
    UnicodeNotation(code) + " = " + caption
  }

  predicate JavaKeys(m: map<int, string>) {
    forall k | k in m :: IsJavaInt(k)
  }

  /** The line of each key of `ks`, in the order of `ks`. */
  function LinesOf(m: map<int, string>, ks: seq<int>): (r: seq<string>)
    requires JavaKeys(m) && forall i | 0 <= i < |ks| :: ks[i] in m
    ensures |r| == |ks|
  {
    seq(|ks|, i requires 0 <= i < |ks| => OutputLine(ks[i], m[ks[i]]))
  }

  lemma LinesOfSnoc(m: map<int, string>, ks: seq<int>, k: int)
    requires JavaKeys(m) && (forall i | 0 <= i < |ks| :: ks[i] in m) && k in m
    ensures LinesOf(m, ks + [k]) == LinesOf(m, ks) + [OutputLine(k, m[k])]
  {
    var a := LinesOf(m, ks + [k]);
    var b := LinesOf(m, ks) + [OutputLine(k, m[k])];
    forall i | 0 <= i < |a| ensures a[i] == b[i] {
      if i < |ks| {
        assert (ks + [k])[i] == ks[i];
      }
    }
  }

  /** The output file: a line per caption, in ascending order. */
  ghost function OutputLines(m: map<int, string>): (r: seq<string>)
    requires JavaKeys(m)
  {
    SortedKeysSpec(m.Keys);
    LinesOf(m, SortedKeys(m.Keys))
  }

  // ---------------------------------------------------------------------
  // The generator

  /** `captionMap`. */
  class CaptionMap {
    var captions: map<int, string>

    constructor ()
      ensures captions == map[]
    {
      captions := map[];
    }

    /** `putCaption`: the new caption replaces any earlier one. */
    method PutCaption(value: int, text: string)
      modifies this
      ensures captions == old(captions)[value := text]
    {
      captions := captions[value := text];
    }

    /** `uniBegin` over the lines of UnicodeData.txt. */
    method UniBegin(lines: seq<string>)
      modifies this
      ensures captions == UniCaptions(old(captions), lines)
    {
      ghost var parsed := Parsed(lines);
      var i := 0;
      while i < |lines|
        invariant 0 <= i <= |lines|
        invariant captions == PutAll(old(captions), parsed[..i])
      {
        PutAllStep(old(captions), parsed, i);
        UniLine(lines[i]);
        i := i + 1;
      }
      assert parsed[..|lines|] == parsed;
    }

    /** The body of the loop of `uniBegin` for one line. */
    method UniLine(line: string)
      modifies this
      ensures captions == match UniData.UniCaption(line)
        case None => old(captions)
        case Some((code, caption)) => old(captions)[code := caption]
    {
      match UniData.MatchUniLine(line)
      case None =>
      case Some(f) =>
        var name := PlainText.TitleCase(f.field.name);
        PutCaption(HexValue(f.hex), name);
    }

    /** `hanBegin`: every syllable from U+AC00 to U+D7A3 in turn, with
        the caption its number gives. */
    method HanBegin()
      modifies this
      ensures captions == old(captions) + HangulCaptions()
    {
      SyllablesCaptioned();
      PutRange(Hangul.HangulCaption, Hangul.FIRST_SYLLABLE, Hangul.LAST_SYLLABLE + 1);
    }

    /** The loop of `hanBegin`: each number from `lo` up to but not
        including `hi` in turn, with the caption `caption` computes from
        it. */
    method PutRange(caption: int --> string, lo: int, hi: int)
      requires lo <= hi && forall v | lo <= v < hi :: caption.requires(v)
      modifies this
      ensures captions == old(captions) + Tabulate(caption, lo, hi)
    {
      ghost var h := Tabulate(caption, lo, hi);
      var value := lo;
      WindowEmpty(old(captions), h, value);
      while value < hi
        invariant lo <= value <= hi
        invariant captions == old(captions) + Window(h, lo, value)
      {
        WindowStep(old(captions), h, lo, value);
        PutCaption(value, caption(value));
        value := value + 1;
      }
      WindowAll(old(captions), h, lo, value);
    }

    /** `cjkBegin`: the readings, then the variants, go into the word
        lists; then, in ascending order of character number, each list
        gives a caption. */
    method CjkBegin(readings: seq<UnihanRecord>, variants: seq<UnihanRecord>)
      requires ValidRecords(readings) && ValidRecords(variants)
      modifies this
      ensures GoodLists(WordListsOf(readings, variants))
      ensures captions == old(captions) + CjkCaptions(WordListsOf(readings, variants))
    {
      WordListsGood(readings, variants);
      var lists := BuildLists(readings, variants);
      PutLists(lists.lists);
    }

    /** The last loop of `cjkBegin`: each list, in ascending order of
        character number, gives the caption of its character. */
    method PutLists(all: map<int, seq<string>>)
      requires Cjk.AllGood(all)
      modifies this
      ensures captions == old(captions) + CjkCaptions(all)
    {
      ghost var c := CjkCaptions(all);
      var keys := AscendingKeys(all.Keys);
      var i := 0;
      while i < |keys|
        invariant 0 <= i <= |keys|
        invariant captions == PutKeys(old(captions), c, keys[..i])
      {
        PutKeysSnoc(old(captions), c, keys[..i], keys[i]);
        TakeSnoc(keys, i);
        PutList(all, keys[i]);
        i := i + 1;
      }
      assert keys[..|keys|] == keys;
      PutKeysAll(old(captions), c, keys);
    }

    /** The body of the last loop of `cjkBegin` for one character: its
        list sorted and joined into a caption. */
    method PutList(all: map<int, seq<string>>, k: int)
      requires Cjk.AllGood(all) && k in all
      modifies this
      ensures k in CjkCaptions(all)
      ensures captions == old(captions)[k := CjkCaptions(all)[k]]
    {
      var caption := Cjk.AssembleCaption(all[k]);
      PutCaption(k, caption);
    }

    /** The output loop of `main`: one line per caption, in ascending order
        of character number. */
    method Output() returns (lines: seq<string>)
      requires JavaKeys(captions)
      ensures lines == OutputLines(captions)
    {
      var keys := AscendingKeys(captions.Keys);
      lines := [];
      var i := 0;
      while i < |keys|
        invariant 0 <= i <= |keys|
        invariant lines == LinesOf(captions, keys[..i])
      {
        LinesOfSnoc(captions, keys[..i], keys[i]);
        TakeSnoc(keys, i);
        lines := lines + [OutputLine(keys[i], captions[keys[i]])];
        i := i + 1;
      }
      assert keys[..|keys|] == keys;
      SortedKeysUnique(keys, captions.Keys);
    }
  }

  /** The two read loops of `cjkBegin`: the lists of `cjkListMap` once
      both files have been read. */
  method BuildLists(readings: seq<UnihanRecord>, variants: seq<UnihanRecord>)
    returns (lists: Cjk.WordLists)
    ensures fresh(lists) && lists.lists == WordListsOf(readings, variants)
  {
    lists := new Cjk.WordLists();
    var i := 0;
    while i < |readings|
      invariant 0 <= i <= |readings|
      invariant lists.lists == ReadAll(map[], readings[..i])
    {
      assert readings[..i + 1][..i] == readings[..i];
      lists.AddReading(readings[i].code, readings[i].field, readings[i].value);
      i := i + 1;
    }
    assert readings[..|readings|] == readings;
    i := 0;
    while i < |variants|
      invariant 0 <= i <= |variants|
      invariant lists.lists == VaryAll(ReadAll(map[], readings), variants[..i])
    {
      assert variants[..i + 1][..i] == variants[..i];
      lists.AddVariants(variants[i].code, variants[i].value);
      i := i + 1;
    }
    assert variants[..|variants|] == variants;
  }

  /** `main`: the three sources in turn, then the output file. */
  method Generate(unicodeData: seq<string>, readings: seq<UnihanRecord>, variants: seq<UnihanRecord>)
    returns (output: seq<string>)
    requires ValidRecords(readings) && ValidRecords(variants)
    ensures output == OutputLines(FinalCaptions(unicodeData, readings, variants))
  {
    var generator := new CaptionMap();
    generator.UniBegin(unicodeData);
    generator.HanBegin();
    generator.CjkBegin(readings, variants);
    assert generator.captions == FinalCaptions(unicodeData, readings, variants);
    output := generator.Output();
  }
}
