/** Facts about sequence concatenation that several modules lean on. */
module Seqs {

  lemma Associative<T>(p: seq<T>, q: seq<T>, r: seq<T>)
    ensures (p + q) + r == p + (q + r)
  {
  }

  lemma Regroup<T>(a: seq<T>, b: seq<T>, c: seq<T>, d: seq<T>, e: seq<T>)
    ensures a + (b + c + d) + e == (a + b) + c + (d + e)
  {
  }

  /** `a` is a proper prefix of `a + [x] + b`, which holds `x` right after it. */
  lemma PrefixIndex<T>(a: seq<T>, x: T, b: seq<T>)
    ensures a < a + [x] + b && (a + [x] + b)[|a|] == x
  {
    assert (a + [x] + b)[..|a|] == a;
  }

  /** A sequence is its part before `p`, its element at `p` and its part after `p`. */
  lemma SplitAt<T>(s: seq<T>, p: nat)
    requires p < |s|
    ensures s == s[..p] + [s[p]] + s[p + 1..]
  {
  }
}
