/**
 The string operations the service relies on: Python's `str.isspace`,
 `str.strip` and `str.lower`, restricted to ASCII, and the normalisation
 `strip().lower()` that the lookup applies to identifiers and requests.
 */
module Text {

  import opened Seqs

  /** Python's `str.isspace` on ASCII: space, \t \n \v \f \r and the separators 0x1C-0x1F. */
  predicate IsSpace(ch: char)
    ensures IsSpace(ch) ==> !('A' <= ch <= 'Z' || 'a' <= ch <= 'z')
  {
    ch == ' ' || (9 <= ch as int <= 13) || (28 <= ch as int <= 31)
  }

  /** The ASCII characters Python counts as whitespace. */
  lemma SpaceCharacters(ch: char)
    ensures IsSpace(ch) <==> ch in " \t\n\r\U{0B}\U{0C}\U{1C}\U{1D}\U{1E}\U{1F}"
  {
  }

  predicate AllSpace(s: string)
  {
    forall k :: 0 <= k < |s| ==> IsSpace(s[k])
  }

  /** No whitespace at either end. */
  predicate IsTrimmed(s: string)
  {
    |s| == 0 || (!IsSpace(s[0]) && !IsSpace(s[|s| - 1]))
  }

  /** Every character of `s` in positions `a..b` is whitespace. */
  predicate SpaceBetween(s: string, a: nat, b: nat)
    requires a <= b <= |s|
  {
    forall k :: a <= k < b ==> IsSpace(s[k])
  }

  /** The scan of `str.lstrip`: the first position at or after `i` that is not whitespace. */
  function SkipLeft(s: string, i: nat): (r: nat)
    requires i <= |s|
    ensures i <= r <= |s| && SpaceBetween(s, i, r)
    ensures r == |s| || !IsSpace(s[r])
    decreases |s| - i
  {
    if i < |s| && IsSpace(s[i]) then SkipLeft(s, i + 1) else i
  }

  /** The scan of `str.rstrip`, stopping at `lo`: the position just past the last
      character before `j` that is not whitespace. */
  function SkipRight(s: string, lo: nat, j: nat): (r: nat)
    requires lo <= j <= |s|
    ensures lo <= r <= j && SpaceBetween(s, r, j)
    ensures r == lo || !IsSpace(s[r - 1])
    decreases j
  {
    if j > lo && IsSpace(s[j - 1]) then SkipRight(s, lo, j - 1) else j
  }

  lemma {:induction false} SkipLeftAt(s: string, i: nat, m: nat)
    requires i <= m <= |s| && SpaceBetween(s, i, m)
    requires m == |s| || !IsSpace(s[m])
    ensures SkipLeft(s, i) == m
    decreases m - i
  {
    if i < m {
      SkipLeftAt(s, i + 1, m);
    }
  }

  lemma {:induction false} SkipRightAt(s: string, lo: nat, j: nat, m: nat)
    requires lo <= m <= j <= |s| && SpaceBetween(s, m, j)
    requires m == lo || !IsSpace(s[m - 1])
    ensures SkipRight(s, lo, j) == m
    decreases j - m
  {
    if m < j {
      SkipRightAt(s, lo, j - 1, m);
    }
  }

  /** Where the stripped core of `s` starts. */
  function TrimStart(s: string): (i: nat)
    ensures i <= |s|
  {
    SkipLeft(s, 0)
  }

  /** Where the stripped core of `s` ends. */
  function TrimEnd(s: string): (j: nat)
    ensures TrimStart(s) <= j <= |s|
  {
    SkipRight(s, TrimStart(s), |s|)
  }

  /** `str.strip()`: a trimmed infix of `s` whose margins are all whitespace. */
  function Trim(s: string): (r: string)
    ensures IsTrimmed(r) && |r| <= |s|
    ensures SpaceBetween(s, 0, TrimStart(s)) && SpaceBetween(s, TrimEnd(s), |s|)
  {
    s[TrimStart(s)..TrimEnd(s)]
  }

  /** Reference characterisation of strip: any split of `s` into whitespace,
      a trimmed core and whitespace has `Trim(s)` as its core. */
  lemma TrimUnique(s: string, i: nat, j: nat)
    requires i <= j <= |s|
    requires SpaceBetween(s, 0, i) && SpaceBetween(s, j, |s|)
    requires i == j || (!IsSpace(s[i]) && !IsSpace(s[j - 1]))
    ensures Trim(s) == s[i..j]
  {
    if i == j {
      SkipLeftAt(s, 0, |s|);
      SkipRightAt(s, |s|, |s|, |s|);
    } else {
      SkipLeftAt(s, 0, i);
      SkipRightAt(s, i, |s|, j);
    }
  }

  lemma TrimOfTrimmed(s: string)
    requires IsTrimmed(s)
    ensures Trim(s) == s
  {
    TrimUnique(s, 0, |s|);
  }

  lemma TrimIdempotent(s: string)
    ensures Trim(Trim(s)) == Trim(s)
  {
    TrimOfTrimmed(Trim(s));
  }

  /** Stripping a trimmed core padded with whitespace gives the core back. */
  lemma TrimOfPadded(p: string, t: string, q: string)
    requires AllSpace(p) && AllSpace(q) && IsTrimmed(t)
    ensures Trim(p + t + q) == t
  {
    var w := p + t + q;
    var i, j := |p|, |p| + |t|;
    forall k | 0 <= k < i ensures IsSpace(w[k]) {
      assert w[k] == p[k];
    }
    forall k | j <= k < |w| ensures IsSpace(w[k]) {
      assert w[k] == q[k - j];
    }
    if t != [] {
      assert w[i] == t[0] && w[j - 1] == t[|t| - 1];
    }
    assert w[i..j] == t;
    TrimUnique(w, i, j);
  }

  /** A string is blank after stripping exactly when it is all whitespace. */
  lemma TrimEmptyIffAllSpace(s: string)
    ensures Trim(s) == [] <==> AllSpace(s)
  {
    if AllSpace(s) {
      TrimUnique(s, |s|, |s|);
    }
    if Trim(s) == [] {
      assert SpaceBetween(s, TrimStart(s), |s|);
    }
  }

  /** Python's `str.lower` on ASCII letters. */
  function LowerChar(ch: char): (r: char)
    ensures IsSpace(r) <==> IsSpace(ch)
    ensures !('A' <= r <= 'Z')
  {
    if 'A' <= ch <= 'Z' then (ch as int + 32) as char else ch
  }

  function Lower(s: string): (r: string)
    ensures |r| == |s|
    ensures forall k :: 0 <= k < |s| ==> r[k] == LowerChar(s[k])
  {
    seq(|s|, k requires 0 <= k < |s| => LowerChar(s[k]))
  }

  /** Holds of a string that `str.lower` leaves unchanged. */
  predicate IsLower(s: string)
  {
    forall k :: 0 <= k < |s| ==> !('A' <= s[k] <= 'Z')
  }

  lemma LowerIsLower(s: string)
    ensures IsLower(Lower(s))
    ensures IsLower(s) ==> Lower(s) == s
  {
  }

  /** `s.strip().lower()`: the comparison form of identifiers and requests. */
  function Normalize(s: string): (r: string)
    ensures IsTrimmed(r) && IsLower(r)
    ensures |r| <= |s|
  {
    var t := Trim(s);
    var r := Lower(t);
    assert |r| > 0 ==> r[0] == LowerChar(t[0]) && r[|r| - 1] == LowerChar(t[|t| - 1]);
    r
  }

  /** A string already in comparison form. */
  predicate IsNormal(s: string)
  {
    IsTrimmed(s) && IsLower(s)
  }

  lemma NormalOfNormal(s: string)
    requires IsNormal(s)
    ensures Normalize(s) == s
  {
    TrimOfTrimmed(s);
    LowerIsLower(s);
  }

  lemma NormalizeIdempotent(s: string)
    ensures Normalize(Normalize(s)) == Normalize(s)
  {
    NormalOfNormal(Normalize(s));
  }

  lemma AllSpaceConcat(a: string, b: string)
    requires AllSpace(a) && AllSpace(b)
    ensures AllSpace(a + b)
  {
    forall k | |a| <= k < |a + b| ensures IsSpace((a + b)[k]) {
      assert (a + b)[k] == b[k - |a|];
    }
  }

  /** `s` is its stripped core between two runs of whitespace. */
  lemma TrimSplit(s: string)
    ensures TrimStart(s) <= TrimEnd(s) <= |s|
    ensures s == s[..TrimStart(s)] + Trim(s) + s[TrimEnd(s)..]
    ensures AllSpace(s[..TrimStart(s)]) && AllSpace(s[TrimEnd(s)..])
  {
    var i, j := TrimStart(s), TrimEnd(s);
    forall k | 0 <= k < i ensures IsSpace(s[..i][k]) { assert s[..i][k] == s[k]; }
    forall k | 0 <= k < |s| - j ensures IsSpace(s[j..][k]) { assert s[j..][k] == s[j + k]; }
  }

  /** Extra whitespace around a string does not change what `strip` leaves. */
  lemma TrimIgnoresMargins(s: string, pad1: string, pad2: string)
    requires AllSpace(pad1) && AllSpace(pad2)
    ensures Trim(pad1 + s + pad2) == Trim(s)
  {
    TrimSplit(s);
    var m1, t, m2 := s[..TrimStart(s)], Trim(s), s[TrimEnd(s)..];
    AllSpaceConcat(pad1, m1);
    AllSpaceConcat(m2, pad2);
    Regroup(pad1, m1, t, m2, pad2);
    TrimOfPadded(pad1 + m1, t, m2 + pad2);
  }

  /** Requests that differ only in surrounding whitespace normalise alike. */
  lemma NormalizeIgnoresMargins(s: string, pad1: string, pad2: string)
    requires AllSpace(pad1) && AllSpace(pad2)
    ensures Normalize(pad1 + s + pad2) == Normalize(s)
  {
    TrimIgnoresMargins(s, pad1, pad2);
  }

  /** Lowering a character never changes whether it is whitespace, so stripping
      and lowering may be done in either order. */
  lemma NormalizeIsTrimLower(s: string)
    ensures Normalize(s) == Trim(Lower(s))
  {
    var i, j, low := TrimStart(s), TrimEnd(s), Lower(s);
    assert SpaceBetween(low, 0, i) && SpaceBetween(low, j, |low|);
    if i < j {
      assert !IsSpace(low[i]) && !IsSpace(low[j - 1]);
    }
    TrimUnique(low, i, j);
    LowerSlice(s, i, j);
  }

  lemma LowerSlice(s: string, i: nat, j: nat)
    requires i <= j <= |s|
    ensures Lower(s)[i..j] == Lower(s[i..j])
  {
    forall k | 0 <= k < j - i ensures Lower(s)[i..j][k] == Lower(s[i..j])[k] {
      assert s[i..j][k] == s[i + k];
    }
  }

  /** Requests that differ only in the case of their letters normalise alike. */
  lemma NormalizeIgnoresCase(s: string, t: string)
    requires Lower(s) == Lower(t)
    ensures Normalize(s) == Normalize(t)
  {
    NormalizeIsTrimLower(s);
    NormalizeIsTrimLower(t);
  }
}
