/** The tag handling inside the `/api/facts` handler of app.js: `tag.split(',')`,
    the check that every requested tag is used by some fact, and the
    conjunctive, order-preserving filter. */
module TagFilter {
  import opened Wrappers
  import opened Validation
  import opened Sequences

  /** One record of facts.json. */
  datatype Fact = Fact(text: string, tags: seq<string>)

  /** `s.split(sep)` for a one-character separator: the pieces between
      separators, empty pieces included, so "" gives [""] and "a," gives ["a", ""]. */
  function Split(s: string, sep: char): (parts: seq<string>)
    ensures |parts| >= 1
    ensures forall p :: p in parts ==> sep !in p
    decreases |s|
  {
    if |s| == 0 then [""]
    else
      var rest := Split(s[1..], sep);
      if s[0] == sep then [""] + rest else [[s[0]] + rest[0]] + rest[1..]
  }

  /** `parts.join(sep)`. */
  function Join(parts: seq<string>, sep: char): string
    requires |parts| >= 1
  {
    if |parts| == 1 then parts[0] else parts[0] + [sep] + Join(parts[1..], sep)
  }

  lemma {:induction false} JoinCons(c: char, parts: seq<string>, sep: char)
    requires |parts| >= 1
    ensures Join([[c] + parts[0]] + parts[1..], sep) == [c] + Join(parts, sep)
  {
    var q := [[c] + parts[0]] + parts[1..];
    assert q[1..] == parts[1..];
  }

  /** Joining the pieces with the separator gives back the string. */
  lemma {:induction false} JoinSplit(s: string, sep: char)
    ensures Join(Split(s, sep), sep) == s
    decreases |s|
  {
    if |s| > 0 {
      var rest := Split(s[1..], sep);
      JoinSplit(s[1..], sep);
      if s[0] == sep {
        assert ([""] + rest)[1..] == rest;
      } else {
        JoinCons(s[0], rest, sep);
      }
      assert s == [s[0]] + s[1..];
    }
  }

  lemma {:induction false} SplitSeparatorFree(p: string, sep: char)
    requires sep !in p
    ensures Split(p, sep) == [p]
    decreases |p|
  {
    if |p| > 0 {
      SplitSeparatorFree(p[1..], sep);
      assert p == [p[0]] + p[1..];
    }
  }

  lemma {:induction false} SplitAfterPiece(p: string, sep: char, rest: string)
    requires sep !in p
    ensures Split(p + [sep] + rest, sep) == [p] + Split(rest, sep)
    decreases |p|
  {
    var s := p + [sep] + rest;
    if |p| == 0 {
      assert s[1..] == rest;
    } else {
      assert s[1..] == p[1..] + [sep] + rest;
      SplitAfterPiece(p[1..], sep, rest);
      assert [p[0]] + p[1..] == p;
    }
  }

  /** Splitting a join of separator-free pieces gives back the pieces. */
  lemma {:induction false} SplitJoin(parts: seq<string>, sep: char)
    requires |parts| >= 1
    requires forall p :: p in parts ==> sep !in p
    ensures Split(Join(parts, sep), sep) == parts
    decreases |parts|
  {
    if |parts| == 1 {
      SplitSeparatorFree(parts[0], sep);
    } else {
      assert parts[0] in parts;
      assert forall p :: p in parts[1..] ==> p in parts;
      SplitJoin(parts[1..], sep);
      SplitAfterPiece(parts[0], sep, Join(parts[1..], sep));
      assert [parts[0]] + parts[1..] == parts;
    }
  }

  /** A tag parameter that passed the syntax check splits into pieces of
      letters, digits and '-' only (some possibly empty). */
  lemma {:induction false} TagPiecesAreWords(tag: string)
    requires IsTagString(tag)
    ensures forall p, i :: p in Split(tag, ',') && 0 <= i < |p| ==> IsTagChar(p[i]) && p[i] != ','
  {
    forall p, i | p in Split(tag, ',') && 0 <= i < |p|
      ensures IsTagChar(p[i]) && p[i] != ','
    {
      PieceCharsComeFromString(tag, ',', p, i);
    }
  }

  lemma {:induction false} PieceCharsComeFromString(s: string, sep: char, p: string, i: nat)
    requires p in Split(s, sep) && i < |p|
    ensures p[i] in s && p[i] != sep
    decreases |s|
  {
    assert sep !in p;
    if |s| > 0 {
      var rest := Split(s[1..], sep);
      if s[0] == sep {
        assert p in rest;
        PieceCharsComeFromString(s[1..], sep, p, i);
      } else if p == [s[0]] + rest[0] {
        if i > 0 {
          assert rest[0] in rest;
          PieceCharsComeFromString(s[1..], sep, rest[0], i - 1);
        }
      } else {
        assert p in rest;
        PieceCharsComeFromString(s[1..], sep, p, i);
      }
    }
  }

  /** `tags.every(tag => fact.tags.includes(tag))`. */
  predicate HasAllTags(f: Fact, tags: seq<string>): (b: bool)
    ensures b <==> (set t | t in tags) <= (set t | t in f.tags)
    ensures tags == [] ==> b
  {
    ElementsSubset(tags, f.tags);
    forall t :: t in tags ==> t in f.tags
  }

  /** `facts.some(fact => fact.tags.includes(tag))`. */
  predicate TagInUse(facts: seq<Fact>, t: string): (b: bool)
    ensures b <==> FilterByTags(facts, [t]) != []
    ensures facts == [] ==> !b
  {
    FilterEmptyIff(facts, [t]);
    exists f :: f in facts && t in f.tags
  }

  /** `tags.every(tag => facts.some(...))`: the check behind "Invalid tag provided.". */
  predicate AllTagsInUse(facts: seq<Fact>, tags: seq<string>): (b: bool)
    ensures tags == [] ==> b
    ensures b && tags != [] ==> facts != []
  {
    assert tags != [] ==> tags[0] in tags;
    forall t :: t in tags ==> TagInUse(facts, t)
  }

  /** `facts.filter(fact => tags.every(tag => fact.tags.includes(tag)))`:
      exactly the facts carrying every requested tag, each as often as it
      occurs, in their original order. */
  function FilterByTags(facts: seq<Fact>, tags: seq<string>): (r: seq<Fact>)
    ensures |r| <= |facts|
    ensures forall f :: f in r ==> HasAllTags(f, tags)
    ensures forall f :: multiset(r)[f] == if HasAllTags(f, tags) then multiset(facts)[f] else 0
    ensures IsSubsequence(r, facts)
  {
    if facts == [] then []
    else
      var rest := FilterByTags(facts[1..], tags);
      assert facts == [facts[0]] + facts[1..];
      if HasAllTags(facts[0], tags) then [facts[0]] + rest
      else
        assert rest != [] ==> rest[0] != facts[0] by {
          if rest != [] { assert rest[0] in rest; }
        }
        rest
  }

  /** With no requested tag the filter keeps the collection unchanged. */
  lemma {:induction false} FilterNoTags(facts: seq<Fact>)
    ensures FilterByTags(facts, []) == facts
  {
    if facts != [] {
      FilterNoTags(facts[1..]);
      assert facts == [facts[0]] + facts[1..];
    }
  }

  /** A requested tag that no fact uses leaves nothing after filtering: the
      tag check only turns an empty answer into an error. */
  lemma UnusedTagFiltersAll(facts: seq<Fact>, tags: seq<string>, t: string)
    requires t in tags && !TagInUse(facts, t)
    ensures FilterByTags(facts, tags) == []
  {
    forall f | f in facts ensures !HasAllTags(f, tags) {
      assert t !in f.tags;
    }
    FilterEmptyIff(facts, tags);
  }

  /** The filtered collection is empty exactly when no single fact carries
      every requested tag. */
  lemma FilterEmptyIff(facts: seq<Fact>, tags: seq<string>)
    ensures FilterByTags(facts, tags) == [] <==> forall f :: f in facts ==> !HasAllTags(f, tags)
  {
    var r := FilterByTags(facts, tags);
    if r != [] {
      assert r[0] in r;
      assert multiset(r)[r[0]] > 0;
    } else {
      forall f | f in facts ensures !HasAllTags(f, tags) {
        assert multiset(facts)[f] > 0;
        assert multiset(r)[f] == 0;
      }
    }
  }

  /** The three properties of the filter determine its result: any
      subsequence of the facts holding every fact with all requested tags, as
      often as it occurs, and no other fact, is the filter's result. */
  lemma {:induction false} FilterUnique(facts: seq<Fact>, tags: seq<string>, r: seq<Fact>)
    requires IsSubsequence(r, facts)
    requires forall f :: multiset(r)[f] == if HasAllTags(f, tags) then multiset(facts)[f] else 0
    ensures r == FilterByTags(facts, tags)
    decreases |facts|
  {
    if facts == [] {
      assert multiset(r) == multiset{};
    } else {
      var head, tail := facts[0], facts[1..];
      assert facts == [head] + tail;
      if r != [] && r[0] == head {
        assert r == [r[0]] + r[1..];
        forall f ensures multiset(r[1..])[f] == if HasAllTags(f, tags) then multiset(tail)[f] else 0 {
          assert multiset(r) == multiset{head} + multiset(r[1..]);
        }
        FilterUnique(tail, tags, r[1..]);
        assert multiset(r)[head] > 0;
      } else {
        assert IsSubsequence(r, tail);
        SubsequenceMultiset(r, tail);
        assert multiset(facts)[head] == multiset(tail)[head] + 1;
        assert !HasAllTags(head, tags);
        forall f ensures multiset(r)[f] == if HasAllTags(f, tags) then multiset(tail)[f] else 0 {
          if f == head {
            assert multiset(r)[f] == 0;
          }
        }
        FilterUnique(tail, tags, r);
      }
    }
  }

  datatype Selection = Selected(facts: seq<Fact>) | InvalidTag

  /** Lines 51-68 of the handler: with a truthy `tag`, split it, reject when a
      requested tag is used by no fact, otherwise keep the facts carrying all
      of them; without one, keep every fact. */
  function SelectFacts(facts: seq<Fact>, tag: Option<string>): (r: Selection)
    ensures !Present(tag) ==> r == Selected(facts)
    ensures Present(tag) ==>
      (r == InvalidTag <==> exists t :: t in Split(tag.value, ',') && !TagInUse(facts, t))
    ensures r.Selected? ==> |r.facts| <= |facts| && IsSubsequence(r.facts, facts)
    ensures r.Selected? && Present(tag) ==>
      forall f :: multiset(r.facts)[f] == if HasAllTags(f, Split(tag.value, ',')) then multiset(facts)[f] else 0
  {
    if Present(tag) then
      var tags := Split(tag.value, ',');
      if !AllTagsInUse(facts, tags) then InvalidTag else Selected(FilterByTags(facts, tags))
    else
      assert IsSubsequence(facts, facts) by { SubsequenceRefl(facts); }
      Selected(facts)
  }
}
