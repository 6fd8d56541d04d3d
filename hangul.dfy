/** The Korean Hangul syllable captions that the caption generator makes up
    instead of reading them: each precomposed syllable from U+AC00 to U+D7A3
    splits into an initial, a medial and a final jamo (section 3.12 of the
    Unicode Standard), and the caption names the three and spells the
    syllable's sound. */
module Hangul {
  import opened JavaLang

  const FIRST_SYLLABLE: int := 0xAC00
  const LAST_SYLLABLE: int := 0xD7A3
  const INITIAL_COUNT: int := 19
  const MEDIAL_COUNT: int := 21
  const FINAL_COUNT: int := 28

  const NAME_INITIAL: seq<string> := ["Kiyeok", "Ssangkiyeok",
    "Nieun", "Tikeut", "Ssangtikeut", "Rieul", "Mieum", "Pieup", "Ssangpieup",
    "Sios", "Ssangsios", "Ieung", "Cieuc", "Ssangcieuc", "Chieuch", "Khieukh",
    "Thieuth", "Phieuph", "Hieuh"]
  const NAME_MEDIAL: seq<string> := ["A", "Ae", "Ya", "Yae", "Eo",
    "E", "Yeo", "Ye", "O", "Wa", "Wae", "Oe", "Yo", "U", "Weo", "We", "Wi",
    "Yu", "Eu", "Yi", "I"]
  const NAME_FINAL: seq<string> := ["", "Kiyeok", "Ssangkiyeok",
    "Kiyeok-Sios", "Nieun", "Nieun-Cieuc", "Nieun-Hieuh", "Tikeut", "Rieul",
    "Rieul-Kiyeok", "Rieul-Mieum", "Rieul-Pieup", "Rieul-Sios",
    "Rieul-Thieuth", "Rieul-Phieuph", "Rieul-Hieuh", "Mieum", "Pieup",
    "Pieup-Sios", "Sios", "Ssangsios", "Ieung", "Cieuc", "Chieuch", "Khieukh",
    "Thieuth", "Phieuph", "Hieuh"]
  const SOUND_INITIAL: seq<string> := ["G", "KK", "N", "D", "TT", "R",
    "M", "B", "PP", "S", "SS", "", "J", "JJ", "CH", "K", "T", "P", "H"]
  const SOUND_MEDIAL: seq<string> := ["A", "AE", "YA", "YAE", "EO",
    "E", "YEO", "YE", "O", "WA", "WAE", "OE", "YO", "U", "WO", "WE", "WI",
    "YU", "EU", "UI", "I"]
  const SOUND_FINAL: seq<string> := ["", "K", "KK", "KS", "N", "NJ",
    "NH", "T", "L", "LK", "LM", "LP", "LS", "LT", "LP", "LH", "M", "P", "PS",
    "S", "SS", "NG", "J", "CH", "K", "T", "P", "H"]

  predicate IsSyllable(value: int) {
    FIRST_SYLLABLE <= value <= LAST_SYLLABLE
  }

  /** The indices of the three jamo of a syllable. */
  datatype Jamo = Jamo(initial: int, medial: int, final: int)

  predicate ValidJamo(j: Jamo) {
    0 <= j.initial < INITIAL_COUNT && 0 <= j.medial < MEDIAL_COUNT && 0 <= j.final < FINAL_COUNT
  }

  /** The syllable that the three jamo compose to. */
  function Compose(j: Jamo): int {
    FIRST_SYLLABLE + (j.initial * MEDIAL_COUNT + j.medial) * FINAL_COUNT + j.final
  }

  /** The index arithmetic of `hanBegin`: the offset from U+AC00 divided
      by 28 leaves the final, the quotient divided by 21 leaves the medial,
      and the last quotient is the initial. */
  function Decompose(value: int): (j: Jamo)
    requires IsSyllable(value)
    ensures ValidJamo(j) && Compose(j) == value
  {
    var first := value - FIRST_SYLLABLE;
    var third := first % FINAL_COUNT;
    var rest := first / FINAL_COUNT;
    var second := rest % MEDIAL_COUNT;
    DivBound(first, FINAL_COUNT, 11172, MEDIAL_COUNT * INITIAL_COUNT);
    DivBound(rest, MEDIAL_COUNT, MEDIAL_COUNT * INITIAL_COUNT, INITIAL_COUNT);
    Jamo(rest / MEDIAL_COUNT, second, third)
  }

  /** A quotient below `q` when the dividend is below `q` divisors' worth. */
  lemma DivBound(n: int, d: int, limit: int, q: int)
    requires 0 <= n < limit && d > 0 && limit == d * q
    ensures 0 <= n / d < q && n == (n / d) * d + n % d && 0 <= n % d < d
  {
    if n / d >= q {
      MulMonotone(q, n / d, d);
    }
  }

  lemma MulMonotone(x: int, y: int, d: int)
    requires x <= y && d >= 0
    ensures x * d <= y * d
  {
  }

  /** Every syllable of the range has jamo in range, and every choice of
      jamo composes to a syllable that decomposes back to it. */
  lemma DecomposeCompose(j: Jamo)
    requires ValidJamo(j)
    ensures IsSyllable(Compose(j)) && Decompose(Compose(j)) == j
  {
    var v := Compose(j);
    var k := j.initial * MEDIAL_COUNT + j.medial;
    assert 0 <= k < INITIAL_COUNT * MEDIAL_COUNT by {
      MulMonotone(j.initial, INITIAL_COUNT - 1, MEDIAL_COUNT);
    }
    assert 0 <= k * FINAL_COUNT + j.final < 11172 by {
      MulMonotone(k, INITIAL_COUNT * MEDIAL_COUNT - 1, FINAL_COUNT);
    }
    UniqueDivision(k * FINAL_COUNT + j.final, FINAL_COUNT, k, j.final);
    UniqueDivision(k, MEDIAL_COUNT, j.initial, j.medial);
  }

  /** Euclidean division is unique. */
  lemma UniqueDivision(n: int, d: int, q: int, r: int)
    requires d > 0 && 0 <= r < d && n == q * d + r
    ensures n / d == q && n % d == r
  {
    var q' := n / d;
    var r' := n % d;
    assert n == q' * d + r';
    if q' < q {
      MulMonotone(q' + 1, q, d);
    } else if q' > q {
      MulMonotone(q + 1, q', d);
    }
  }

  // ---------------------------------------------------------------------
  // The caption

  /** The jamo names: `"Hangul Syllable " + initial + " " + medial + " " +
      final`, trimmed, so that a syllable without a final has no trailing
      space. */
  function SyllableName(j: Jamo): string
    requires ValidJamo(j)
  {
    Trim("Hangul Syllable " + NAME_INITIAL[j.initial] + " " + NAME_MEDIAL[j.medial] + " " + NAME_FINAL[j.final])
  }

  /** The three sounds run together. */
  function Sound(j: Jamo): (s: string)
    requires ValidJamo(j)
    ensures s != []
  {
    MedialSoundsNonEmpty(j.medial);
    SOUND_INITIAL[j.initial] + SOUND_MEDIAL[j.medial] + SOUND_FINAL[j.final]
  }

  /** The caption `hanBegin` gives a syllable: the jamo names, then the
      sound in parentheses with its first letter kept and the others
      lower-cased. */
  function HangulCaption(value: int): string
    requires IsSyllable(value)
  {
    var j := Decompose(value);
    var s := Sound(j);
    SyllableName(j) + " (" + [s[0]] + LowerString(s[1..]) + ")"
  }

  /** Every medial sound is a letter or more, so a sound is never empty. */
  lemma MedialSoundsNonEmpty(m: int)
    requires 0 <= m < MEDIAL_COUNT
    ensures SOUND_MEDIAL[m] != []
  {
    assert forall w | w in SOUND_MEDIAL :: |w| > 0;
    assert SOUND_MEDIAL[m] in SOUND_MEDIAL;
  }

  /** A name part that `trim` leaves alone at both ends. */
  predicate Untrimmed(s: string) {
    s != [] && s[0] > ' ' && s[|s| - 1] > ' '
  }

  lemma NamesUntrimmed(j: Jamo)
    requires ValidJamo(j)
    ensures Untrimmed(NAME_INITIAL[j.initial]) && Untrimmed(NAME_MEDIAL[j.medial])
    ensures j.final > 0 ==> Untrimmed(NAME_FINAL[j.final])
  {
    InitialNameUntrimmed(j.initial);
    MedialNameUntrimmed(j.medial);
    if j.final > 0 {
      FinalNameUntrimmed(j.final);
    }
  }

  lemma InitialNameUntrimmed(i: int)
    requires 0 <= i < INITIAL_COUNT
    ensures Untrimmed(NAME_INITIAL[i])
  {
    match i
    case 0 =>
    case 1 =>
    case 2 =>
    case 3 =>
    case 4 =>
    case 5 =>
    case 6 =>
    case 7 =>
    case 8 =>
    case 9 =>
    case 10 =>
    case 11 =>
    case 12 =>
    case 13 =>
    case 14 =>
    case 15 =>
    case 16 =>
    case 17 =>
    case 18 =>
  }

  lemma MedialNameUntrimmed(i: int)
    requires 0 <= i < MEDIAL_COUNT
    ensures Untrimmed(NAME_MEDIAL[i])
  {
    match i
    case 0 =>
    case 1 =>
    case 2 =>
    case 3 =>
    case 4 =>
    case 5 =>
    case 6 =>
    case 7 =>
    case 8 =>
    case 9 =>
    case 10 =>
    case 11 =>
    case 12 =>
    case 13 =>
    case 14 =>
    case 15 =>
    case 16 =>
    case 17 =>
    case 18 =>
    case 19 =>
    case 20 =>
  }

  lemma FinalNameUntrimmed(i: int)
    requires 0 < i < FINAL_COUNT
    ensures Untrimmed(NAME_FINAL[i])
  {
    if i < 14 {
      match i
      case 1 =>
      case 2 =>
      case 3 =>
      case 4 =>
      case 5 =>
      case 6 =>
      case 7 =>
      case 8 =>
      case 9 =>
      case 10 =>
      case 11 =>
      case 12 =>
      case 13 =>
    } else {
      match i
      case 14 =>
      case 15 =>
      case 16 =>
      case 17 =>
      case 18 =>
      case 19 =>
      case 20 =>
      case 21 =>
      case 22 =>
      case 23 =>
      case 24 =>
      case 25 =>
      case 26 =>
      case 27 =>
    }
  }

  /** `trim` keeps a text without surrounding blanks, and removes one
      trailing blank. */
  lemma TrimUntrimmed(s: string)
    requires Untrimmed(s)
    ensures Trim(s) == s && Trim(s + " ") == s
  {
    var t := s + " ";
    assert t[0] == s[0] && t[..|t| - 1] == s;
  }

  /** The caption names exactly the syllable's jamo, with one space between
      names and none after the last: a syllable without a final ends its
      names with the medial. */
  lemma SyllableNameSpec(j: Jamo)
    requires ValidJamo(j)
    ensures SyllableName(j) ==
      "Hangul Syllable " + NAME_INITIAL[j.initial] + " " + NAME_MEDIAL[j.medial] +
      (if j.final == 0 then "" else " " + NAME_FINAL[j.final])
  {
    NamesUntrimmed(j);
    assert NAME_FINAL[0] == "";
    TrimNames(NAME_INITIAL[j.initial], NAME_MEDIAL[j.medial], NAME_FINAL[j.final]);
  }

  lemma TrimNames(a: string, b: string, c: string)
    requires Untrimmed(a) && Untrimmed(b) && (c == [] || Untrimmed(c))
    ensures Trim("Hangul Syllable " + a + " " + b + " " + c) ==
      "Hangul Syllable " + a + " " + b + (if c == [] then "" else " " + c)
  {
    var head := "Hangul Syllable " + a + " " + b;
    assert Untrimmed(head) by {
      assert head[0] == 'H' && head[|head| - 1] == b[|b| - 1];
    }
    if c == [] {
      assert head + " " + c == head + " ";
      TrimUntrimmed(head);
    } else {
      TrimJoin(head, c);
    }
  }

  lemma TrimJoin(head: string, c: string)
    requires Untrimmed(head) && Untrimmed(c)
    ensures Trim(head + " " + c) == head + " " + c
  {
    var whole := head + " " + c;
    assert whole[0] == head[0] && whole[|whole| - 1] == c[|c| - 1];
    TrimUntrimmed(whole);
  }

  /** `c` is `name`, ` (`, the first letter of `s` as it is, the rest of
      `s` in lower case, and `)`. */
  predicate SoundCaption(c: string, name: string, s: string) {
    s != [] && |c| == |name| + |s| + 3 &&
    c[..|name|] == name && c[|name|..|name| + 2] == " (" && c[|name| + 2] == s[0] &&
    (forall i | 1 <= i < |s| :: c[|name| + 2 + i] == ToLower(s[i])) && c[|c| - 1] == ')'
  }

  /** The caption of a syllable: its jamo names, then ` (`, the first
      letter of its sound as it is, the rest of the sound in lower case,
      and `)`. */
  lemma HangulCaptionSpec(value: int)
    requires IsSyllable(value)
    ensures var j := Decompose(value);
      SoundCaption(HangulCaption(value), SyllableName(j), Sound(j))
  {
    var j := Decompose(value);
    ParenthesisedSound(SyllableName(j), Sound(j));
  }

  /** The caption text built from a name and a non-empty sound. */
  lemma ParenthesisedSound(name: string, s: string)
    requires s != []
    ensures SoundCaption(name + " (" + [s[0]] + LowerString(s[1..]) + ")", name, s)
  {
    var c := name + " (" + [s[0]] + LowerString(s[1..]) + ")";
    var n := |name|;
    forall i | 1 <= i < |s| ensures c[n + 2 + i] == ToLower(s[i]) {
      assert c[n + 2 + i] == LowerString(s[1..])[i - 1];
    }
  }
}
