/**
 Python's default ordering of `str` values (lexicographic by code point, a
 proper prefix first) and `sorted`, which the listing endpoint applies to the
 distinct names of a column.
 */
module Sorting {

  import opened Frame

  /** `a < b` on Python strings. */
  predicate Less(a: string, b: string)
    ensures a < b ==> Less(a, b)
  {
    if a == [] then b != []
    else b != [] && (a[0] < b[0] || (a[0] == b[0] && Less(a[1..], b[1..])))
  }

  predicate LessEq(a: string, b: string)
  {
    a == b || Less(a, b)
  }

  lemma {:induction false} LessIrreflexive(a: string)
    ensures !Less(a, a)
  {
    if a != [] {
      LessIrreflexive(a[1..]);
    }
  }

  lemma {:induction false} LessTransitive(a: string, b: string, c: string)
    requires Less(a, b) && Less(b, c)
    ensures Less(a, c)
  {
    if a != [] && a[0] == b[0] && b[0] == c[0] {
      LessTransitive(a[1..], b[1..], c[1..]);
    }
  }

  /** Any two different strings are ordered one way or the other. */
  lemma {:induction false} LessTotal(a: string, b: string)
    requires a != b
    ensures Less(a, b) || Less(b, a)
  {
    if a != [] && b != [] && a[0] == b[0] {
      assert a == [a[0]] + a[1..] && b == [b[0]] + b[1..];
      LessTotal(a[1..], b[1..]);
    }
  }

  lemma LessEqTransitive(a: string, b: string, c: string)
    requires LessEq(a, b) && LessEq(b, c)
    ensures LessEq(a, c)
  {
    if a != b && b != c {
      LessTransitive(a, b, c);
    }
  }

  predicate Sorted(xs: seq<string>)
  {
    forall i, j :: 0 <= i < j < |xs| ==> LessEq(xs[i], xs[j])
  }

  /** Strictly ascending, hence free of duplicates. */
  predicate StrictlySorted(xs: seq<string>)
  {
    forall i, j :: 0 <= i < j < |xs| ==> Less(xs[i], xs[j])
  }

  lemma StrictlySortedHasNoDuplicates(xs: seq<string>)
    requires StrictlySorted(xs)
    ensures NoDuplicates(xs)
  {
    forall i, j | 0 <= i < j < |xs| ensures xs[i] != xs[j] {
      LessIrreflexive(xs[i]);
    }
  }

  /** Places `x` in a sorted list. */
  function Insert(x: string, xs: seq<string>): (r: seq<string>)
    requires Sorted(xs)
    ensures Sorted(r)
    ensures multiset(r) == multiset(xs) + multiset{x}
  {
    if xs == [] then [x]
    else if LessEq(x, xs[0]) then
      assert forall j :: 0 <= j < |xs| ==> LessEq(x, xs[j]) by {
        forall j | 0 <= j < |xs| ensures LessEq(x, xs[j]) {
          LessEqTransitive(x, xs[0], xs[j]);
        }
      }
      [x] + xs
    else
      var rest := Insert(x, xs[1..]);
      assert xs == [xs[0]] + xs[1..];
      LessTotal(x, xs[0]);
      HeadBelowInsert(x, xs, rest);
      [xs[0]] + rest
  }

  /** After `x` goes into the tail of `xs`, the head of `xs` still comes first. */
  lemma HeadBelowInsert(x: string, xs: seq<string>, rest: seq<string>)
    requires Sorted(xs) && xs != [] && LessEq(xs[0], x)
    requires multiset(rest) == multiset(xs[1..]) + multiset{x}
    ensures forall j :: 0 <= j < |rest| ==> LessEq(xs[0], rest[j])
  {
    forall j | 0 <= j < |rest| ensures LessEq(xs[0], rest[j]) {
      assert rest[j] in multiset(rest);
      if rest[j] != x {
        assert rest[j] in multiset(xs[1..]);
        var k :| 0 <= k < |xs[1..]| && xs[1..][k] == rest[j];
        assert xs[k + 1] == rest[j];
      }
    }
  }

  /** Python's `sorted` on a list of strings. */
  function Sort(xs: seq<string>): (r: seq<string>)
    ensures Sorted(r)
    ensures multiset(r) == multiset(xs)
  {
    if xs == [] then []
    else
      assert xs == [xs[0]] + xs[1..];
      Insert(xs[0], Sort(xs[1..]))
  }

  lemma {:induction false} NoDuplicatesCount(xs: seq<string>, x: string)
    requires NoDuplicates(xs)
    ensures multiset(xs)[x] <= 1
  {
    if xs != [] {
      var last := xs[|xs| - 1];
      var init := xs[..|xs| - 1];
      assert xs == init + [last];
      NoDuplicatesCount(init, x);
      forall k | 0 <= k < |init| ensures init[k] != last {
        assert init[k] == xs[k];
      }
      assert last !in init;
    }
  }

  /** Two positions of a list whose value occurs at most once hold different values. */
  lemma SingleOccurrenceDistinct(r: seq<string>, i: nat, j: nat)
    requires i < j < |r| && multiset(r)[r[i]] <= 1
    ensures r[i] != r[j]
  {
    assert r == r[..j] + [r[j]] + r[j + 1..];
    assert multiset(r)[r[j]] >= multiset(r[..j])[r[j]] + 1;
    assert r[..j][i] == r[i];
    assert multiset(r[..j])[r[i]] >= 1;
  }

  /** A sorted permutation of a list without duplicates is strictly ascending. */
  lemma SortedPermutationStrict(xs: seq<string>, r: seq<string>)
    requires NoDuplicates(xs) && Sorted(r) && multiset(r) == multiset(xs)
    ensures StrictlySorted(r)
  {
    forall i, j | 0 <= i < j < |r| ensures Less(r[i], r[j]) {
      NoDuplicatesCount(xs, r[i]);
      SingleOccurrenceDistinct(r, i, j);
    }
  }

  lemma {:induction false} LessAsymmetric(a: string, b: string)
    requires Less(a, b)
    ensures !Less(b, a)
  {
    if a != [] && a[0] == b[0] {
      LessAsymmetric(a[1..], b[1..]);
    }
  }

  lemma LessEqAntisymmetric(a: string, b: string)
    requires LessEq(a, b) && LessEq(b, a)
    ensures a == b
  {
    if a != b {
      LessAsymmetric(a, b);
    }
  }

  /** The head of an ascending list is below every element of it. */
  lemma SortedHeadLeast(xs: seq<string>, v: string)
    requires Sorted(xs) && v in xs
    ensures LessEq(xs[0], v)
  {
    var m :| 0 <= m < |xs| && xs[m] == v;
    if m > 0 {
      assert LessEq(xs[0], xs[m]);
    }
  }

  /** A strictly ascending list is determined by its elements: the sorted
      listing of a set of names is unique. */
  lemma {:induction false} StrictlySortedUnique(xs: seq<string>, ys: seq<string>)
    requires StrictlySorted(xs) && StrictlySorted(ys)
    requires forall v :: v in xs <==> v in ys
    ensures xs == ys
  {
    if xs != [] {
      assert xs[0] in ys;
    }
    if ys != [] {
      assert ys[0] in xs;
    }
    if xs != [] && ys != [] {
      SortedHeadLeast(xs, ys[0]);
      SortedHeadLeast(ys, xs[0]);
      LessEqAntisymmetric(xs[0], ys[0]);
      StrictlySortedTail(xs);
      StrictlySortedTail(ys);
      StrictlySortedUnique(xs[1..], ys[1..]);
      assert xs == [xs[0]] + xs[1..] && ys == [ys[0]] + ys[1..];
    }
  }

  /** Dropping the head of a strictly ascending list removes exactly that element. */
  lemma StrictlySortedTail(xs: seq<string>)
    requires StrictlySorted(xs) && xs != []
    ensures StrictlySorted(xs[1..])
    ensures forall v :: v in xs[1..] <==> v in xs && v != xs[0]
  {
    LessIrreflexive(xs[0]);
    forall v | v in xs && v != xs[0] ensures v in xs[1..] {
      var m :| 0 <= m < |xs| && xs[m] == v;
      assert xs[1..][m - 1] == v;
    }
    forall v | v in xs[1..] ensures v != xs[0] {
      var m :| 0 <= m < |xs[1..]| && xs[1..][m] == v;
      assert Less(xs[0], xs[m + 1]);
    }
  }
}
