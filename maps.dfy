/** The `TreeMap` operations the caption generator relies on, on Dafny
    maps: iteration over the keys in ascending order, a run of `put`s, and
    a map filled key by key. */
module Maps {
  import opened JavaLang

  // ---------------------------------------------------------------------
  // Keys in ascending order

  /** The least element of a non-empty set. */
  ghost function Least(s: set<int>): (m: int)
    requires s != {}
    ensures m in s && forall k | k in s :: m <= k
    decreases |s|
  {
    HasMember(s);
    var x :| x in s;
    var rest := s - {x};
    if rest == {} then
      LeastOfOne(s, x);
      x
    else
      var y := Least(rest);
      LeastOfTwo(s, x, y);
      if x < y then x else y
  }

  lemma HasMember(s: set<int>)
    requires s != {}
    ensures exists x :: x in s
  {
    if forall x :: x !in s {
      assert false;
    }
  }

  lemma LeastOfOne(s: set<int>, x: int)
    requires x in s && s - {x} == {}
    ensures forall k | k in s :: x <= k
  {
    forall k | k in s ensures x <= k {
      assert k !in s - {x};
    }
  }

  lemma LeastOfTwo(s: set<int>, x: int, y: int)
    requires x in s && y in s - {x} && forall k | k in s - {x} :: y <= k
    ensures forall k | k in s :: (if x < y then x else y) <= k
  {
    forall k | k in s ensures (if x < y then x else y) <= k {
      if k != x {
        assert k in s - {x};
      }
    }
  }

  /** The elements of `s`, ascending. */
  ghost function SortedKeys(s: set<int>): (r: seq<int>)
    decreases |s|
  {
    if s == {} then []
    else
      var m := Least(s);
      [m] + SortedKeys(s - {m})
  }

  predicate Ascending(r: seq<int>) {
    forall i, j | 0 <= i < j < |r| :: r[i] < r[j]
  }

  /** The keys listed in order are exactly the elements of the set, each
      once, strictly ascending. */
  lemma {:induction false} SortedKeysSpec(s: set<int>)
    ensures var r := SortedKeys(s);
      |r| == |s| && Ascending(r) && forall k :: k in r <==> k in s
    decreases |s|
  {
    if s != {} {
      var m := Least(s);
      var rest := s - {m};
      SortedKeysSpec(rest);
      assert SortedKeys(s) == [m] + SortedKeys(rest);
      ConsSorted(s, m, rest, SortedKeys(rest));
    }
  }

  /** The step of `SortedKeysSpec`: the least element put before the
      others listed in order. */
  lemma ConsSorted(s: set<int>, m: int, rest: set<int>, t: seq<int>)
    requires m in s && rest == s - {m} && forall k | k in s :: m <= k
    requires |t| == |rest| && Ascending(t) && forall k :: k in t <==> k in rest
    ensures |[m] + t| == |s| && Ascending([m] + t) && forall k :: k in [m] + t <==> k in s
  {
    assert s == rest + {m};
    ConsAscending(m, t, rest);
    forall k ensures k in [m] + t <==> k in s {
      assert k in [m] + t <==> k == m || k in t;
    }
  }

  lemma ConsAscending(m: int, t: seq<int>, rest: set<int>)
    requires Ascending(t) && (forall k :: k in t <==> k in rest) && forall k | k in rest :: m < k
    ensures Ascending([m] + t)
  {
    var r := [m] + t;
    forall i, j | 0 <= i < j < |r| ensures r[i] < r[j] {
      assert r[j] == t[j - 1] && t[j - 1] in t;
      if i > 0 {
        assert r[i] == t[i - 1];
      }
    }
  }

  /** Taking the least key off the set takes it off the front of the
      ascending list. */
  lemma SortedKeysFront(s: set<int>, k: int)
    requires k in s && forall j | j in s :: k <= j
    ensures SortedKeys(s) == [k] + SortedKeys(s - {k})
  {
    assert Least(s) == k;
  }

  /** The iteration of a `TreeMap`'s key set: the keys in ascending
      order, each once. */
  method AscendingKeys(s: set<int>) returns (ks: seq<int>)
    ensures |ks| == |s| && Ascending(ks) && forall k :: k in ks <==> k in s
    ensures forall i | 0 <= i < |ks| :: ks[i] in s
  {
    var remaining := s;
    ks := [];
    while remaining != {}
      invariant ks + SortedKeys(remaining) == SortedKeys(s)
      decreases |remaining|
    {
      ghost var least := Least(remaining);
      var k :| k in remaining && forall j | j in remaining :: k <= j;
      NextKey(ks, remaining, k, SortedKeys(s));
      ks := ks + [k];
      remaining := remaining - {k};
    }
    SortedKeysListed(ks, s);
  }

  lemma SortedKeysListed(ks: seq<int>, s: set<int>)
    requires ks + SortedKeys({}) == SortedKeys(s)
    ensures |ks| == |s| && Ascending(ks) && forall k :: k in ks <==> k in s
    ensures forall i | 0 <= i < |ks| :: ks[i] in s
  {
    assert ks == SortedKeys(s);
    SortedKeysSpec(s);
    forall i | 0 <= i < |ks| ensures ks[i] in s {
      var k := ks[i];
      assert k in ks;
    }
  }

  /** One step of the key iteration: the least key left comes next. */
  lemma NextKey(ks: seq<int>, remaining: set<int>, k: int, all: seq<int>)
    requires ks + SortedKeys(remaining) == all
    requires k in remaining && forall j | j in remaining :: k <= j
    ensures (ks + [k]) + SortedKeys(remaining - {k}) == all
    ensures |remaining - {k}| < |remaining|
  {
    SortedKeysFront(remaining, k);
  }

  /** A strictly ascending list of exactly the elements of `s` is the
      ascending list of `s`. */
  lemma {:induction false} SortedKeysUnique(ks: seq<int>, s: set<int>)
    requires Ascending(ks) && forall k :: k in ks <==> k in s
    ensures ks == SortedKeys(s)
    decreases |ks|
  {
    if ks == [] {
      forall k ensures k !in s {
        assert k !in ks;
      }
      assert s == {};
    } else {
      var m := ks[0];
      HeadLeast(ks, s);
      SortedKeysFront(s, m);
      TailRest(ks, s);
      SortedKeysUnique(ks[1..], s - {m});
      assert ks == [m] + ks[1..];
    }
  }

  /** The head of an ascending list is the least of its elements. */
  lemma HeadLeast(ks: seq<int>, s: set<int>)
    requires ks != [] && Ascending(ks) && forall k :: k in ks <==> k in s
    ensures ks[0] in s && forall k | k in s :: ks[0] <= k
  {
    assert ks[0] in ks;
    forall k | k in s ensures ks[0] <= k {
      var i :| 0 <= i < |ks| && ks[i] == k;
      if i > 0 {
        assert ks[0] < ks[i];
      }
    }
  }

  /** The tail of an ascending list is ascending and holds the other
      elements. */
  lemma TailRest(ks: seq<int>, s: set<int>)
    requires ks != [] && Ascending(ks) && forall k :: k in ks <==> k in s
    ensures Ascending(ks[1..]) && forall k :: k in ks[1..] <==> k in s - {ks[0]}
  {
    var t := ks[1..];
    forall k ensures k in t <==> k in s - {ks[0]} {
      if k in t {
        var i :| 0 <= i < |t| && t[i] == k;
        assert ks[i + 1] == k && ks[0] < ks[i + 1];
      }
      if k in s - {ks[0]} {
        assert k in ks;
        var i :| 0 <= i < |ks| && ks[i] == k;
        assert t[i - 1] == k;
      }
    }
    forall i, j | 0 <= i < j < |t| ensures t[i] < t[j] {
      assert t[i] == ks[i + 1] && t[j] == ks[j + 1];
    }
  }

  /** A prefix one element longer. */
  lemma TakeSnoc(ks: seq<int>, i: int)
    requires 0 <= i < |ks|
    ensures ks[..i + 1] == ks[..i] + [ks[i]]
  {
  }

  // ---------------------------------------------------------------------
  // A run of `put`s

  /** `put(code, caption)` for each entry that has one, in order. */
  function PutAll(m: map<int, string>, puts: seq<Option<(int, string)>>): map<int, string>
    decreases |puts|
  {
    if puts == [] then m
    else
      var before := PutAll(m, puts[..|puts| - 1]);
      match puts[|puts| - 1]
      case None => before
      case Some((code, caption)) => before[code := caption]
  }

  lemma PutAllSnoc(m: map<int, string>, puts: seq<Option<(int, string)>>, p: Option<(int, string)>)
    ensures PutAll(m, puts + [p]) ==
      match p
      case None => PutAll(m, puts)
      case Some((code, caption)) => PutAll(m, puts)[code := caption]
  {
    assert (puts + [p])[..|puts|] == puts;
  }

  /** `PutAllSnoc` for a prefix one longer. */
  lemma PutAllStep(m: map<int, string>, puts: seq<Option<(int, string)>>, i: int)
    requires 0 <= i < |puts|
    ensures PutAll(m, puts[..i + 1]) ==
      match puts[i]
      case None => PutAll(m, puts[..i])
      case Some((code, caption)) => PutAll(m, puts[..i])[code := caption]
  {
    assert puts[..i + 1] == puts[..i] + [puts[i]];
    PutAllSnoc(m, puts[..i], puts[i]);
  }

  /** The last `put` of a key decides its value. */
  lemma {:induction false} PutAllLast(m: map<int, string>, puts: seq<Option<(int, string)>>, k: int)
    requires 0 <= k < |puts| && puts[k].Some?
    requires forall j | k < j < |puts| :: puts[j].None? || puts[j].value.0 != puts[k].value.0
    ensures puts[k].value.0 in PutAll(m, puts) && PutAll(m, puts)[puts[k].value.0] == puts[k].value.1
    decreases |puts|
  {
    if k < |puts| - 1 {
      var front := puts[..|puts| - 1];
      assert front[k] == puts[k];
      forall j | k < j < |front| ensures front[j].None? || front[j].value.0 != front[k].value.0 {
        assert front[j] == puts[j];
      }
      PutAllLast(m, front, k);
    }
  }

  /** A key no entry puts keeps its value, or stays absent. */
  lemma {:induction false} PutAllUntouched(m: map<int, string>, puts: seq<Option<(int, string)>>, v: int)
    requires forall j | 0 <= j < |puts| :: puts[j].None? || puts[j].value.0 != v
    ensures v in PutAll(m, puts) <==> v in m
    ensures v in m ==> PutAll(m, puts)[v] == m[v]
    decreases |puts|
  {
    if puts != [] {
      var front := puts[..|puts| - 1];
      forall j | 0 <= j < |front| ensures front[j].None? || front[j].value.0 != v {
        assert front[j] == puts[j];
      }
      PutAllUntouched(m, front, v);
    }
  }

  /** Keys stay within bounds when every key put is. */
  lemma {:induction false} PutAllKeys(m: map<int, string>, puts: seq<Option<(int, string)>>, bound: int)
    requires forall k | k in m :: 0 <= k < bound
    requires forall j | 0 <= j < |puts| :: puts[j].None? || 0 <= puts[j].value.0 < bound
    ensures forall k | k in PutAll(m, puts) :: 0 <= k < bound
    decreases |puts|
  {
    if puts != [] {
      var front := puts[..|puts| - 1];
      assert forall j | 0 <= j < |front| :: front[j] == puts[j];
      PutAllKeys(m, front, bound);
    }
  }

  // ---------------------------------------------------------------------
  // A map filled key by key

  /** The entries of `h` whose keys are from `lo` up to but not including
      `hi`. */
  function Window(h: map<int, string>, lo: int, hi: int): (r: map<int, string>)
    ensures forall k :: k in r <==> k in h && lo <= k < hi
  {
    map k | k in h && lo <= k < hi :: h[k]
  }

  /** The map from each number from `lo` up to but not including `hi` to
      what `f` gives for it. */
  function Tabulate(f: int --> string, lo: int, hi: int): (r: map<int, string>)
    requires forall v | lo <= v < hi :: f.requires(v)
    ensures forall k :: k in r <==> lo <= k < hi
    ensures forall k | k in r :: r[k] == f(k)
  {
    map v | lo <= v < hi :: f(v)
  }

  /** One key more of `h`, at the top of the window. */
  lemma WindowStep(m: map<int, string>, h: map<int, string>, lo: int, hi: int)
    requires lo <= hi && hi in h
    ensures (m + Window(h, lo, hi))[hi := h[hi]] == m + Window(h, lo, hi + 1)
  {
    var a := (m + Window(h, lo, hi))[hi := h[hi]];
    var b := m + Window(h, lo, hi + 1);
    assert a.Keys == b.Keys;
    forall j | j in a ensures a[j] == b[j] {
      if j != hi && j in h && lo <= j < hi {
        assert Window(h, lo, hi)[j] == h[j] == Window(h, lo, hi + 1)[j];
      }
    }
  }

  lemma WindowEmpty(m: map<int, string>, h: map<int, string>, lo: int)
    ensures m + Window(h, lo, lo) == m
  {
    assert Window(h, lo, lo) == map[];
  }

  lemma WindowAll(m: map<int, string>, h: map<int, string>, lo: int, hi: int)
    requires forall k | k in h :: lo <= k < hi
    ensures m + Window(h, lo, hi) == m + h
  {
    assert Window(h, lo, hi) == h;
  }

  /** `put(k, h[k])` for each key `k` of `ks`, in order. */
  function PutKeys(m: map<int, string>, h: map<int, string>, ks: seq<int>): map<int, string>
    requires forall i | 0 <= i < |ks| :: ks[i] in h
    decreases |ks|
  {
    if ks == [] then m
    else
      var k := ks[|ks| - 1];
      PutKeys(m, h, ks[..|ks| - 1])[k := h[k]]
  }

  lemma PutKeysSnoc(m: map<int, string>, h: map<int, string>, ks: seq<int>, k: int)
    requires (forall i | 0 <= i < |ks| :: ks[i] in h) && k in h
    ensures PutKeys(m, h, ks + [k]) == PutKeys(m, h, ks)[k := h[k]]
  {
    assert (ks + [k])[..|ks|] == ks;
  }

  /** The keys put take their values in `h`; the others keep theirs. */
  lemma {:induction false} PutKeysSpec(m: map<int, string>, h: map<int, string>, ks: seq<int>)
    requires forall i | 0 <= i < |ks| :: ks[i] in h
    ensures forall k :: k in PutKeys(m, h, ks) <==> k in m || k in ks
    ensures forall k | k in PutKeys(m, h, ks) :: PutKeys(m, h, ks)[k] == if k in ks then h[k] else m[k]
    decreases |ks|
  {
    if ks != [] {
      var front := ks[..|ks| - 1];
      PutKeysSpec(m, h, front);
      assert ks == front + [ks[|ks| - 1]];
      forall k ensures k in ks <==> k in front || k == ks[|ks| - 1] {
      }
    }
  }

  /** Putting every key of `h` overrides `m` with `h`. */
  lemma PutKeysAll(m: map<int, string>, h: map<int, string>, ks: seq<int>)
    requires forall k :: k in ks <==> k in h
    ensures (forall i | 0 <= i < |ks| :: ks[i] in h) && PutKeys(m, h, ks) == m + h
  {
    forall i | 0 <= i < |ks| ensures ks[i] in h {
      var k := ks[i];
      assert k in ks;
    }
    PutKeysSpec(m, h, ks);
    var r := PutKeys(m, h, ks);
    forall k ensures k in r <==> k in m + h {
      assert k in ks <==> k in h;
    }
    assert r.Keys == (m + h).Keys;
    forall k | k in r ensures r[k] == (m + h)[k] {
      if k in ks {
        assert k in h;
      }
    }
  }
}
