/**
  The order Python's `sorted` puts strings in: lexicographic by code point,
  a proper prefix first. Dafny's own `<` on sequences is the proper-prefix
  relation, so the order is defined here.
 */
module TextOrder {

  /** Python's `a < b` on two `str` values. */
  predicate Less(a: string, b: string)
    decreases |a|
  {
    if a == [] then b != []
    else if b == [] then false
    else if a[0] != b[0] then a[0] < b[0]
    else Less(a[1..], b[1..])
  }

  lemma {:induction false} LessIrreflexive(a: string)
    ensures !Less(a, a)
    decreases |a|
  {
    if a != [] {
      LessIrreflexive(a[1..]);
    }
  }

  lemma {:induction false} LessTransitive(a: string, b: string, c: string)
    requires Less(a, b) && Less(b, c)
    ensures Less(a, c)
    decreases |a|
  {
    if a != [] && a[0] == b[0] && b[0] == c[0] {
      LessTransitive(a[1..], b[1..], c[1..]);
    }
  }

  lemma {:induction false} LessTotal(a: string, b: string)
    requires a != b
    ensures Less(a, b) || Less(b, a)
    decreases |a|
  {
    if a != [] && b != [] && a[0] == b[0] {
      assert a == [a[0]] + a[1..] && b == [b[0]] + b[1..];
      LessTotal(a[1..], b[1..]);
    }
  }

  lemma LessAsymmetric(a: string, b: string)
    requires Less(a, b)
    ensures !Less(b, a)
  {
    if Less(b, a) {
      LessTransitive(a, b, a);
      LessIrreflexive(a);
    }
  }

  /** Every earlier element is strictly below every later one: sorted and free of duplicates. */
  predicate StrictlySorted(xs: seq<string>) {
    forall i, j :: 0 <= i < j < |xs| ==> Less(xs[i], xs[j])
  }

  function Elems(xs: seq<string>): (s: set<string>) {
    set x | x in xs
  }

  lemma ElemsEmpty(xs: seq<string>)
    ensures Elems(xs) == {} <==> xs == []
  {
    if xs != [] {
      assert xs[0] in Elems(xs);
    }
  }

  lemma StrictlySortedDistinct(xs: seq<string>)
    requires StrictlySorted(xs)
    ensures forall i, j :: 0 <= i < j < |xs| ==> xs[i] != xs[j]
  {
    forall i, j | 0 <= i < j < |xs| ensures xs[i] != xs[j] {
      LessIrreflexive(xs[i]);
    }
  }

  /** Inserts `k` at its place in a strictly sorted sequence, keeping it so. */
  function InsertSorted(xs: seq<string>, k: string): (r: seq<string>)
    requires StrictlySorted(xs)
    ensures StrictlySorted(r)
    ensures Elems(r) == Elems(xs) + {k}
    decreases |xs|
  {
    if xs == [] then [k]
    else if k == xs[0] then xs
    else if Less(k, xs[0]) then
      PrependLeast(k, xs);
      [k] + xs
    else
      LessTotal(k, xs[0]);
      assert StrictlySorted(xs[1..]) by {
        forall i, j | 0 <= i < j < |xs[1..]| ensures Less(xs[1..][i], xs[1..][j]) {
          assert xs[1..][i] == xs[i + 1] && xs[1..][j] == xs[j + 1];
        }
      }
      var rest := InsertSorted(xs[1..], k);
      PrependHead(xs, k, rest);
      [xs[0]] + rest
  }

  /** A string below the head of a strictly sorted sequence can go in front of it. */
  lemma PrependLeast(k: string, xs: seq<string>)
    requires StrictlySorted(xs) && xs != [] && Less(k, xs[0])
    ensures StrictlySorted([k] + xs)
    ensures Elems([k] + xs) == Elems(xs) + {k}
  {
    forall j | 0 < j < |xs| ensures Less(k, xs[j]) {
      LessTransitive(k, xs[0], xs[j]);
    }
    var r := [k] + xs;
    forall i, j | 0 <= i < j < |r| ensures Less(r[i], r[j]) {
      if i > 0 {
        assert r[i] == xs[i - 1] && r[j] == xs[j - 1];
      }
    }
  }

  /** The head of `xs` stays in front when `k`, above it, went into the rest. */
  lemma PrependHead(xs: seq<string>, k: string, rest: seq<string>)
    requires StrictlySorted(xs) && xs != [] && Less(xs[0], k)
    requires StrictlySorted(rest) && Elems(rest) == Elems(xs[1..]) + {k}
    ensures StrictlySorted([xs[0]] + rest)
    ensures Elems([xs[0]] + rest) == Elems(xs) + {k}
  {
    assert xs == [xs[0]] + xs[1..];
    forall y | y in rest ensures Less(xs[0], y) {
      assert y in Elems(rest);
      if y != k {
        var j :| 0 <= j < |xs[1..]| && xs[1..][j] == y;
        assert xs[j + 1] == y;
      }
    }
    var r := [xs[0]] + rest;
    forall i, j | 0 <= i < j < |r| ensures Less(r[i], r[j]) {
      if i == 0 {
        assert r[j] == rest[j - 1] && r[j] in rest;
      } else {
        assert r[i] == rest[i - 1] && r[j] == rest[j - 1];
      }
    }
    assert Elems(r) == {xs[0]} + Elems(rest);
    assert Elems(xs) == {xs[0]} + Elems(xs[1..]);
  }

  /** Two strictly sorted sequences holding the same strings are the same sequence. */
  lemma {:induction false} SortedUnique(xs: seq<string>, ys: seq<string>)
    requires StrictlySorted(xs) && StrictlySorted(ys)
    requires Elems(xs) == Elems(ys)
    ensures xs == ys
    decreases |xs|
  {
    if xs != [] && ys != [] {
      // the head of each is the least element of the common set
      assert ys[0] in Elems(xs) && xs[0] in Elems(ys);
      var i :| 0 <= i < |xs| && xs[i] == ys[0];
      var j :| 0 <= j < |ys| && ys[j] == xs[0];
      if i != 0 {
        assert Less(xs[0], xs[i]);
        if j != 0 {
          assert Less(ys[0], ys[j]);
          LessAsymmetric(xs[0], ys[0]);
        } else {
          LessIrreflexive(xs[0]);
        }
      }
      assert xs[0] == ys[0];
      StrictlySortedDistinct(xs);
      StrictlySortedDistinct(ys);
      assert Elems(xs[1..]) == Elems(xs) - {xs[0]} by {
        assert xs == [xs[0]] + xs[1..];
      }
      assert Elems(ys[1..]) == Elems(ys) - {ys[0]} by {
        assert ys == [ys[0]] + ys[1..];
      }
      SortedUnique(xs[1..], ys[1..]);
      assert xs == [xs[0]] + xs[1..] && ys == [ys[0]] + ys[1..];
    } else {
      // one of them is empty, so the common set is empty, and so is the other
      ElemsEmpty(xs);
      ElemsEmpty(ys);
    }
  }

  /** `sorted(list(s))` for a set of strings: the strictly sorted sequence of its elements. */
  ghost function SortedOf(s: set<string>): (r: seq<string>)
    ensures StrictlySorted(r)
    ensures Elems(r) == s
    decreases |s|
  {
    if s == {} then []
    else
      var x :| x in s;
      InsertSorted(SortedOf(s - {x}), x)
  }

  /** SortedOf is the only strictly sorted arrangement of a set. */
  lemma SortedOfUnique(xs: seq<string>, s: set<string>)
    requires StrictlySorted(xs) && Elems(xs) == s
    ensures xs == SortedOf(s)
  {
    SortedUnique(xs, SortedOf(s));
  }
}
