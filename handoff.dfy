/** The generator's output file as the viewer's `loadConfig` reads it: a
    file of `U+XXXX = caption` lines, one per character in ascending order,
    loads back as exactly the captions the generator held, provided every
    character is a code point and every caption is text the viewer's
    caption pattern can capture. */
module Handoff {
  import opened JavaLang
  import opened Utf16
  import opened Maps
  import Config
  import Generator

  /** Every character is a code point, and every caption starts and ends
      with a non-space and has no line terminator before its end. */
  predicate Loadable(m: map<int, string>) {
    forall k | k in m :: 0 <= k <= MAX_CODE_POINT && Config.IsCaptionText(m[k])
  }

  /** A caption line for each key of `ks`, in the order of `ks`. */
  function CaptionLines(m: map<int, string>, ks: seq<int>): (r: seq<Config.ConfigLine>)
    requires forall i | 0 <= i < |ks| :: ks[i] in m
    ensures |r| == |ks| && forall i | 0 <= i < |ks| :: r[i] == Config.CaptionLine(ks[i], m[ks[i]])
  {
    seq(|ks|, i requires 0 <= i < |ks| => Config.CaptionLine(ks[i], m[ks[i]]))
  }

  /** Every line the generator writes for a loadable map is classified as
      the caption line of its character. */
  lemma ClassifiedLines(m: map<int, string>, ks: seq<int>)
    requires Loadable(m) && Generator.JavaKeys(m) && forall i | 0 <= i < |ks| :: ks[i] in m
    ensures Config.Classified(Generator.LinesOf(m, ks)) == CaptionLines(m, ks)
  {
    var lines := Generator.LinesOf(m, ks);
    forall i | 0 <= i < |ks|
      ensures Config.ClassifyLine(lines[i]) == Config.CaptionLine(ks[i], m[ks[i]])
    {
      Config.CaptionLineRoundTrip(ks[i], m[ks[i]]);
    }
  }

  /** Loading caption lines puts their captions in order, and sets no
      label. */
  lemma {:induction false} LoadCaptionLines(m: map<int, string>, ks: seq<int>)
    requires forall i | 0 <= i < |ks| :: ks[i] in m
    ensures Config.LoadAll(CaptionLines(m, ks)) == Config.Loaded(PutKeys(map[], m, ks), map[])
    decreases |ks|
  {
    if ks != [] {
      var front := ks[..|ks| - 1];
      LoadCaptionLines(m, front);
      assert CaptionLines(m, ks)[..|ks| - 1] == CaptionLines(m, front);
    }
  }

  /** The generator's lines start with `U`, never with a byte-order
      mark. */
  lemma NoMark(m: map<int, string>, ks: seq<int>)
    requires Generator.JavaKeys(m) && forall i | 0 <= i < |ks| :: ks[i] in m
    ensures Config.WithoutMark(Generator.LinesOf(m, ks)) == Generator.LinesOf(m, ks)
  {
    var lines := Generator.LinesOf(m, ks);
    if |lines| > 0 {
      assert lines[0] == Generator.OutputLine(ks[0], m[ks[0]]);
      assert lines[0][0] == 'U';
    }
  }

  /** The lines of every key of a loadable map, in any order, load back
      into that map. */
  lemma LinesLoadBack(m: map<int, string>, ks: seq<int>)
    requires Loadable(m) && Generator.JavaKeys(m)
    requires (forall k :: k in ks <==> k in m) && forall i | 0 <= i < |ks| :: ks[i] in m
    ensures Config.LoadAll(Config.Classified(Config.WithoutMark(Generator.LinesOf(m, ks)))) ==
      Config.Loaded(m, map[])
  {
    NoMark(m, ks);
    ClassifiedLines(m, ks);
    CaptionLinesLoadBack(m, ks);
  }

  /** A caption line for every key of `m` loads back into `m`. */
  lemma CaptionLinesLoadBack(m: map<int, string>, ks: seq<int>)
    requires (forall k :: k in ks <==> k in m) && forall i | 0 <= i < |ks| :: ks[i] in m
    ensures Config.LoadAll(CaptionLines(m, ks)) == Config.Loaded(m, map[])
  {
    LoadCaptionLines(m, ks);
    PutKeysAll(map[], m, ks);
    assert map[] + m == m;
  }

  /** The viewer loads the generator's output file back into the
      generator's captions, and sets no label. */
  lemma OutputLoadsBack(m: map<int, string>)
    requires Loadable(m)
    ensures Generator.JavaKeys(m)
    ensures Config.LoadAll(Config.Classified(Config.WithoutMark(Generator.OutputLines(m)))) ==
      Config.Loaded(m, map[])
  {
    assert Generator.JavaKeys(m);
    var ks := SortedKeys(m.Keys);
    SortedKeysListed(ks, m.Keys);
    LinesLoadBack(m, ks);
  }
}
