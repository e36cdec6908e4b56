/** `getRandomElements` of app.js: a Fisher-Yates shuffle of a copy of the
    input array, truncated to the requested count. The random index of each
    step comes from an oracle, `rolls`, instead of `Math.random`. */
module Sampler {
  import opened Sequences

  /** The oracle's draws: the step that starts with `currentIndex == c` swaps
      position `c - 1` with `rolls[c - 1]`, which must lie in `[0, c)`, as
      `Math.floor(Math.random() * c)` does. */
  predicate ValidRolls(rolls: seq<nat>, n: nat) {
    n <= |rolls| && forall k :: 0 <= k < |rolls| ==> rolls[k] <= k
  }

  /** Exchange the elements at `i` and `j` (the three assignments through
      `temporaryValue`). */
  function Swap<T>(s: seq<T>, i: nat, j: nat): (r: seq<T>)
    requires i < |s| && j < |s|
    ensures |r| == |s| && r[i] == s[j] && r[j] == s[i]
    ensures forall k :: 0 <= k < |s| && k != i && k != j ==> r[k] == s[k]
  {
    s[i := s[j]][j := s[i]]
  }

  /** The working copy after the loop has run from `currentIndex == c` down to 0. */
  function ShuffleDown<T>(s: seq<T>, rolls: seq<nat>, c: nat): (r: seq<T>)
    requires c <= |s| && ValidRolls(rolls, c)
    ensures |r| == |s| && r[c..] == s[c..]
    decreases c
  {
    if c == 0 then s else ShuffleDown(Swap(s, c - 1, rolls[c - 1]), rolls, c - 1)
  }

  /** The whole shuffle of the working copy. */
  function Shuffled<T>(s: seq<T>, rolls: seq<nat>): (r: seq<T>)
    requires ValidRolls(rolls, |s|)
    ensures |r| == |s| && multiset(r) == multiset(s)
  {
    ShuffleDownPermutes(s, rolls, |s|);
    ShuffleDown(s, rolls, |s|)
  }

  /** `getRandomElements(s, n)` for the given draws. */
  function Sample<T>(s: seq<T>, rolls: seq<nat>, n: nat): (r: seq<T>)
    requires ValidRolls(rolls, |s|)
    ensures |r| == Min(n, |s|) && multiset(r) <= multiset(s)
  {
    var shuffled := Shuffled(s, rolls);
    var m := Min(n, |s|);
    assert shuffled == shuffled[..m] + shuffled[m..];
    assert multiset(shuffled) == multiset(shuffled[..m]) + multiset(shuffled[m..]);
    shuffled[..m]
  }

  lemma {:induction false} SwapPermutes<T>(s: seq<T>, i: nat, j: nat)
    requires i < |s| && j < |s|
    ensures multiset(Swap(s, i, j)) == multiset(s)
  {
    var t := s[i := s[j]];
    assert multiset(t) == multiset(s) - multiset{s[i]} + multiset{s[j]};
    assert multiset(t[j := s[i]]) == multiset(t) - multiset{t[j]} + multiset{s[i]};
  }

  /** The shuffle only rearranges: the working copy stays a permutation of the input. */
  lemma {:induction false} ShuffleDownPermutes<T>(s: seq<T>, rolls: seq<nat>, c: nat)
    requires c <= |s| && ValidRolls(rolls, c)
    ensures |ShuffleDown(s, rolls, c)| == |s|
    ensures multiset(ShuffleDown(s, rolls, c)) == multiset(s)
    decreases c
  {
    if c > 0 {
      SwapPermutes(s, c - 1, rolls[c - 1]);
      ShuffleDownPermutes(Swap(s, c - 1, rolls[c - 1]), rolls, c - 1);
    }
  }

  /** `p` lists positions of `s`. */
  predicate PositionsIn<T>(p: seq<nat>, s: seq<T>) {
    forall k :: 0 <= k < |p| ==> p[k] < |s|
  }

  /** The elements of `s` at the positions `p`, in that order. */
  function At<T>(s: seq<T>, p: seq<nat>): (r: seq<T>)
    requires PositionsIn(p, s)
    ensures |r| == |p| && forall k :: 0 <= k < |p| ==> r[k] == s[p[k]]
  {
    seq(|p|, k requires 0 <= k < |p| => s[p[k]])
  }

  /** The positions 0, 1, ..., n - 1. */
  function Iota(n: nat): (p: seq<nat>)
    ensures |p| == n && forall k :: 0 <= k < n ==> p[k] == k
  {
    seq(n, k => k)
  }

  /** Shuffling commutes with reading through positions: shuffling the
      elements is reading `s` through the shuffled positions. */
  lemma {:induction false} ShuffleDownAt<T>(s: seq<T>, p: seq<nat>, rolls: seq<nat>, c: nat)
    requires PositionsIn(p, s) && c <= |p| && ValidRolls(rolls, c)
    ensures PositionsIn(ShuffleDown(p, rolls, c), s)
    ensures ShuffleDown(At(s, p), rolls, c) == At(s, ShuffleDown(p, rolls, c))
    decreases c
  {
    if c > 0 {
      var p' := Swap(p, c - 1, rolls[c - 1]);
      assert Swap(At(s, p), c - 1, rolls[c - 1]) == At(s, p');
      ShuffleDownAt(s, p', rolls, c - 1);
    }
  }

  lemma {:induction false} ShuffleDownDistinct<T>(s: seq<T>, rolls: seq<nat>, c: nat)
    requires c <= |s| && ValidRolls(rolls, c) && Distinct(s)
    ensures Distinct(ShuffleDown(s, rolls, c))
    decreases c
  {
    if c > 0 {
      var i, j := c - 1, rolls[c - 1];
      var t := Swap(s, i, j);
      forall a, b | 0 <= a < b < |t| ensures t[a] != t[b] {
        var a' := if a == i then j else if a == j then i else a;
        var b' := if b == i then j else if b == j then i else b;
        assert t[a] == s[a'] && t[b] == s[b'] && a' != b';
      }
      ShuffleDownDistinct(t, rolls, c - 1);
    }
  }

  /** The positions the shuffle moves to the front, in order. */
  function Positions(n: nat, rolls: seq<nat>): seq<nat>
    requires ValidRolls(rolls, n)
  {
    Shuffled(Iota(n), rolls)
  }

  /** Each sampled element comes from its own position of the input: the
      sample reads `s` through distinct positions. */
  lemma SampleFromDistinctPositions<T>(s: seq<T>, rolls: seq<nat>, n: nat)
    requires ValidRolls(rolls, |s|)
    ensures var r, p := Sample(s, rolls, n), Positions(|s|, rolls);
      && |r| == Min(n, |s|) && |p| == |s|
      && Distinct(p[..|r|])
      && forall k :: 0 <= k < |r| ==> p[k] < |s| && r[k] == s[p[k]]
  {
    var iota := Iota(|s|);
    assert At(s, iota) == s;
    ShuffleDownAt(s, iota, rolls, |s|);
    ShuffleDownDistinct(iota, rolls, |s|);
  }

  /** The sample has `min(n, |s|)` elements, is a sub-multiset of the input,
      and has no repeats when the input has none. */
  lemma SampleProperties<T>(s: seq<T>, rolls: seq<nat>, n: nat)
    requires ValidRolls(rolls, |s|)
    ensures |Sample(s, rolls, n)| == Min(n, |s|)
    ensures multiset(Sample(s, rolls, n)) <= multiset(s)
    ensures Distinct(s) ==> Distinct(Sample(s, rolls, n))
  {
    var shuffled := Shuffled(s, rolls);
    var r := Sample(s, rolls, n);
    ShuffleDownPermutes(s, rolls, |s|);
    assert shuffled == r + shuffled[|r|..];
    assert multiset(shuffled) == multiset(r) + multiset(shuffled[|r|..]);
    if Distinct(s) {
      SampleFromDistinctPositions(s, rolls, n);
      var p := Positions(|s|, rolls);
      forall i, j | 0 <= i < j < |r| ensures r[i] != r[j] {
        assert p[..|r|][i] != p[..|r|][j];
      }
    }
  }

  /** `getRandomElements(array, numElements)`: shuffles a copy of `arr` in
      place and returns its first `numElements` elements; `arr` itself is
      not modified. */
  method GetRandomElements<T>(arr: array<T>, numElements: nat, rolls: seq<nat>) returns (r: seq<T>)
    requires ValidRolls(rolls, arr.Length)
    ensures r == Sample(arr[..], rolls, numElements)
    ensures |r| == Min(numElements, arr.Length)
    ensures multiset(r) <= multiset(arr[..])
    ensures Distinct(arr[..]) ==> Distinct(r)
  {
    var shuffled := new T[arr.Length](i requires 0 <= i < arr.Length reads arr => arr[i]);
    assert shuffled[..] == arr[..];
    var currentIndex: nat := shuffled.Length;
    while currentIndex != 0
      invariant currentIndex <= shuffled.Length
      invariant multiset(shuffled[..]) == multiset(arr[..])
      invariant ShuffleDown(shuffled[..], rolls, currentIndex) == Shuffled(arr[..], rolls)
    {
      ghost var before := shuffled[..];
      var randomIndex := rolls[currentIndex - 1];
      currentIndex := currentIndex - 1;
      var temporaryValue := shuffled[currentIndex];
      shuffled[currentIndex] := shuffled[randomIndex];
      shuffled[randomIndex] := temporaryValue;
      assert shuffled[..] == Swap(before, currentIndex, randomIndex);
      SwapPermutes(before, currentIndex, randomIndex);
    }
    assert shuffled[..] == Shuffled(arr[..], rolls);
    SampleProperties(arr[..], rolls, numElements);
    r := shuffled[..Min(numElements, shuffled.Length)];
  }
}
