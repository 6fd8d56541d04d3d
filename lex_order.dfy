/** The order of `String.compareTo`, which `Collections.sort` applies to the
    CJK word lists, and an insertion sort standing for that library call.
    Sorted permutations under a total order are unique, so any correct sort
    gives the same list. */
module LexOrder {
  import opened JavaLang

  /** `a.compareTo(b) < 0`: at the first position where the strings differ
      the character of `a` is smaller, or `a` is a proper prefix of `b`. */
  predicate LexLess(a: string, b: string)
    decreases |a|
  {
    b != [] && (a == [] || a[0] < b[0] || (a[0] == b[0] && LexLess(a[1..], b[1..])))
  }

  lemma {:induction false} LexIrreflexive(a: string)
    ensures !LexLess(a, a)
    decreases |a|
  {
    if a != [] {
      LexIrreflexive(a[1..]);
    }
  }

  lemma {:induction false} LexAsymmetric(a: string, b: string)
    requires LexLess(a, b)
    ensures !LexLess(b, a)
    decreases |a|
  {
    if a != [] && a[0] == b[0] {
      LexAsymmetric(a[1..], b[1..]);
    }
  }

  lemma {:induction false} LexTransitive(a: string, b: string, c: string)
    requires LexLess(a, b) && LexLess(b, c)
    ensures LexLess(a, c)
    decreases |a|
  {
    if a != [] && a[0] == b[0] && b[0] == c[0] {
      LexTransitive(a[1..], b[1..], c[1..]);
    }
  }

  /** Any two different strings are ordered one way or the other. */
  lemma {:induction false} LexTotal(a: string, b: string)
    ensures a == b || LexLess(a, b) || LexLess(b, a)
    decreases |a|
  {
    if a != [] && b != [] && a[0] == b[0] {
      LexTotal(a[1..], b[1..]);
      if a[1..] == b[1..] {
        assert a == [a[0]] + a[1..] && b == [b[0]] + b[1..];
      }
    }
  }

  /** Strings that differ within their first two characters are ordered as
      those two-character prefixes are. */
  lemma TagOrder(a: string, b: string)
    requires |a| >= 2 && |b| >= 2 && LexLess(a[..2], b[..2])
    ensures LexLess(a, b)
  {
    var p, q := a[..2], b[..2];
    assert p[0] == a[0] && q[0] == b[0];
    if a[0] == b[0] {
      assert LexLess(p[1..], q[1..]);
      assert p[1..] == [a[1]] && q[1..] == [b[1]];
      assert LexLess([a[1]], [b[1]]);
      assert [a[1]][1..] == [] && [b[1]][1..] == [];
      assert !LexLess([], []);
      assert a[1] < b[1];
      assert a[1..][0] == a[1] && b[1..][0] == b[1];
    }
  }

  /** No word is smaller than one before it. */
  predicate SortedLex(s: seq<string>) {
    forall i, j | 0 <= i < j < |s| :: !LexLess(s[j], s[i])
  }

  /** `x` placed before the first word of `s` that is not smaller. */
  function Insert(x: string, s: seq<string>): (r: seq<string>)
    ensures multiset(r) == multiset(s) + multiset{x}
    decreases |s|
  {
    if s == [] || !LexLess(s[0], x) then [x] + s
    else
      var r := [s[0]] + Insert(x, s[1..]);
      assert s == [s[0]] + s[1..];
      r
  }

  lemma {:induction false} InsertSorted(x: string, s: seq<string>)
    requires SortedLex(s)
    ensures SortedLex(Insert(x, s))
    decreases |s|
  {
    if s == [] || !LexLess(s[0], x) {
      var r := [x] + s;
      forall i, j | 0 <= i < j < |r| ensures !LexLess(r[j], r[i]) {
        if i == 0 && LexLess(s[j - 1], x) {
          var m := s[0];
          LexTotal(x, m);
          if x != m {
            LexTransitive(s[j - 1], x, m);
          }
          if j == 1 {
            LexIrreflexive(m);
          }
          assert false;
        }
      }
    } else {
      InsertSorted(x, s[1..]);
      var t := Insert(x, s[1..]);
      forall j | 0 <= j < |t| ensures !LexLess(t[j], s[0]) {
        assert t[j] in multiset(t);
        if t[j] == x {
          LexAsymmetric(s[0], x);
        } else {
          assert t[j] in s[1..];
          var k :| 0 <= k < |s[1..]| && s[1..][k] == t[j];
          assert s[k + 1] == t[j];
        }
      }
    }
  }

  /** The sort: the words of `s` in ascending order. */
  function SortWords(s: seq<string>): (r: seq<string>)
    ensures multiset(r) == multiset(s) && SortedLex(r)
    decreases |s|
  {
    if s == [] then []
    else
      var t := SortWords(s[1..]);
      InsertSorted(s[0], t);
      assert s == [s[0]] + s[1..];
      Insert(s[0], t)
  }

  /** The first word of a sorted list is its least. */
  lemma SortedHead(s: seq<string>, x: string)
    requires SortedLex(s) && x in s
    ensures !LexLess(x, s[0])
  {
    var k :| 0 <= k < |s| && s[k] == x;
    if k == 0 {
      LexIrreflexive(x);
    }
  }

  /** A sorted permutation is unique: two sorted lists of the same words
      are equal, whatever algorithm produced them. */
  lemma {:induction false} SortedUnique(a: seq<string>, b: seq<string>)
    requires SortedLex(a) && SortedLex(b) && multiset(a) == multiset(b)
    ensures a == b
    decreases |a|
  {
    assert |b| == |a| by {
      assert |multiset(a)| == |multiset(b)|;
    }
    if a != [] {
      assert a[0] in multiset(b) && b[0] in multiset(a);
      SortedHead(a, b[0]);
      SortedHead(b, a[0]);
      LexTotal(a[0], b[0]);
      SameTail(a, b);
      SortedTail(a);
      SortedTail(b);
      SortedUnique(a[1..], b[1..]);
      assert a == [a[0]] + a[1..] && b == [b[0]] + b[1..];
    }
  }

  lemma SortedTail(s: seq<string>)
    requires SortedLex(s) && s != []
    ensures SortedLex(s[1..])
  {
    forall i, j | 0 <= i < j < |s| - 1 ensures !LexLess(s[1..][j], s[1..][i]) {
      assert s[1..][j] == s[j + 1] && s[1..][i] == s[i + 1];
    }
  }

  /** Lists with the same words and the same first word have the same
      remaining words. */
  lemma SameTail(a: seq<string>, b: seq<string>)
    requires multiset(a) == multiset(b) && a != [] && b != [] && a[0] == b[0]
    ensures multiset(a[1..]) == multiset(b[1..])
  {
    assert a == [a[0]] + a[1..] && b == [b[0]] + b[1..];
    assert multiset(a) == multiset{a[0]} + multiset(a[1..]);
    assert multiset(b) == multiset{b[0]} + multiset(b[1..]);
    forall w ensures multiset(a[1..])[w] == multiset(b[1..])[w] {
      assert multiset(a)[w] == multiset(b)[w];
    }
  }
}
