/** Facts about sequences shared by the filter, the sampler and the route:
    order-preserving subsequences, absence of repeats, and the minimum that
    bounds a sample's length. */
module Sequences {

  function Min(a: int, b: int): (m: int)
    ensures m <= a && m <= b && (m == a || m == b)
  {
    if a <= b then a else b
  }

  predicate Distinct<T(==)>(s: seq<T>) {
    forall i, j :: 0 <= i < j < |s| ==> s[i] != s[j]
  }

  /** `r` keeps the elements of `s` in their order (greedy matching). */
  predicate IsSubsequence<T(==)>(r: seq<T>, s: seq<T>)
    decreases |s|
  {
    if r == [] then true
    else if s == [] then false
    else if r[0] == s[0] then IsSubsequence(r[1..], s[1..])
    else IsSubsequence(r, s[1..])
  }

  lemma {:induction false} SubsequenceMultiset<T>(r: seq<T>, s: seq<T>)
    requires IsSubsequence(r, s)
    ensures multiset(r) <= multiset(s)
    decreases |s|
  {
    if r != [] {
      assert s == [s[0]] + s[1..];
      if r[0] == s[0] {
        SubsequenceMultiset(r[1..], s[1..]);
        assert r == [r[0]] + r[1..];
      } else {
        SubsequenceMultiset(r, s[1..]);
      }
    }
  }

  lemma {:induction false} SubsequenceRefl<T>(s: seq<T>)
    ensures IsSubsequence(s, s)
    decreases |s|
  {
    if s != [] {
      SubsequenceRefl(s[1..]);
    }
  }

  lemma {:induction false} SubsequenceDistinct<T>(r: seq<T>, s: seq<T>)
    requires IsSubsequence(r, s) && Distinct(s)
    ensures Distinct(r)
    decreases |s|
  {
    if r != [] {
      if r[0] == s[0] {
        SubsequenceDistinct(r[1..], s[1..]);
        SubsequenceMultiset(r[1..], s[1..]);
        forall j | 0 < j < |r| ensures r[0] != r[j] {
          assert r[j] == r[1..][j - 1];
          assert multiset(r[1..])[r[j]] > 0;
          assert r[j] in s[1..];
        }
      } else {
        SubsequenceDistinct(r, s[1..]);
      }
    }
  }

  /** One sequence's elements all occur in another exactly when its element
      set is a subset of the other's. */
  lemma ElementsSubset<T>(a: seq<T>, b: seq<T>)
    ensures (set x | x in a) <= (set x | x in b) <==> forall x :: x in a ==> x in b
  {
    var sa, sb := set x | x in a, set x | x in b;
    if forall x :: x in a ==> x in b {
      forall x | x in sa ensures x in sb {
        assert x in a;
      }
    }
    if sa <= sb {
      forall x | x in a ensures x in b {
        assert x in sa;
      }
    }
  }
}
