/** Sequence helpers: duplicate-freedom and `Array.from(new Set(xs))`. */
module Seqs {

  predicate NoDuplicates<T(==)>(s: seq<T>) {
    forall i, j :: 0 <= i < j < |s| ==> s[i] != s[j]
  }

  /** The position of the first occurrence of `x` in `s`. */
  function FirstIndex<T(==)>(s: seq<T>, x: T): (k: nat)
    requires x in s
    ensures k < |s| && s[k] == x && x !in s[..k]
  {
    if s[0] == x then 0 else 1 + FirstIndex(s[1..], x)
  }

  /** A JavaScript `Set` filled from `s` and turned back into an array: every
      element is kept at its first occurrence and later repeats are dropped. */
  function Dedupe<T(==)>(s: seq<T>): (r: seq<T>)
    ensures NoDuplicates(r)
    ensures forall i :: 0 <= i < |r| ==> r[i] in s
    ensures forall i :: 0 <= i < |s| ==> s[i] in r
    ensures |r| <= |s|
  {
    if s == [] then []
    else
      var d := Dedupe(s[..|s| - 1]);
      if s[|s| - 1] in s[..|s| - 1] then d else d + [s[|s| - 1]]
  }

  /** `Set.add`: appending to an insertion-ordered set. */
  function SetAdd<T(==)>(s: seq<T>, x: T): seq<T> {
    if x in s then s else s + [x]
  }

  lemma DedupeSnoc<T>(s: seq<T>, x: T)
    ensures Dedupe(s + [x]) == SetAdd(Dedupe(s), x)
  {
    assert (s + [x])[..|s|] == s;
  }

  lemma FirstIndexInPrefix<T>(s: seq<T>, x: T, y: T)
    requires y in s
    ensures FirstIndex(s + [x], y) == FirstIndex(s, y)
  {
    var k := FirstIndex(s, y);
    var k' := FirstIndex(s + [x], y);
    assert (s + [x])[..k'] == s[..k'] || k' == |s|;
    assert (s + [x])[k] == y;
  }

  /** The deduplicated list is ordered by first occurrence in the input. */
  lemma {:induction false} DedupeFirstOccurrenceOrder<T>(s: seq<T>, i: nat, j: nat)
    requires i < j < |Dedupe(s)|
    ensures FirstIndex(s, Dedupe(s)[i]) < FirstIndex(s, Dedupe(s)[j])
  {
    var p := s[..|s| - 1];
    var x := s[|s| - 1];
    assert s == p + [x];
    var d := Dedupe(p);
    assert Dedupe(s) == SetAdd(d, x) by { DedupeSnoc(p, x); }
    var a, b := Dedupe(s)[i], Dedupe(s)[j];
    assert i < |d|;
    assert a == d[i] && a in p;
    FirstIndexInPrefix(p, x, a);
    if j < |d| {
      DedupeFirstOccurrenceOrder(p, i, j);
      FirstIndexInPrefix(p, x, b);
    } else {
      assert b == x && x !in p;
      assert FirstIndex(s, b) == |p|;
    }
  }

  /** `Array.prototype.filter`: the elements `keep` accepts, in order. */
  function Filter<T>(s: seq<T>, keep: T -> bool): (r: seq<T>)
    ensures |r| <= |s|
  {
    if s == [] then []
    else Filter(s[..|s| - 1], keep) + (if keep(s[|s| - 1]) then [s[|s| - 1]] else [])
  }

  /** Filtering keeps only accepted elements of the input. */
  lemma {:induction false} FilterMembers<T>(s: seq<T>, keep: T -> bool, x: T)
    requires x in Filter(s, keep)
    ensures x in s && keep(x)
  {
    var p := s[..|s| - 1];
    if x in Filter(p, keep) {
      FilterMembers(p, keep, x);
      assert s == p + [s[|s| - 1]];
    }
  }

  /** Filtering keeps every accepted element. */
  lemma {:induction false} FilterKeeps<T>(s: seq<T>, keep: T -> bool, x: T)
    requires x in s && keep(x)
    ensures x in Filter(s, keep)
  {
    var p := s[..|s| - 1];
    if x != s[|s| - 1] {
      assert s == p + [s[|s| - 1]];
      FilterKeeps(p, keep, x);
    }
  }

  /** Filtering a concatenation filters each part: the order of the input
      is kept. */
  lemma {:induction false} FilterAppend<T>(a: seq<T>, b: seq<T>, keep: T -> bool)
    ensures Filter(a + b, keep) == Filter(a, keep) + Filter(b, keep)
    decreases |b|
  {
    if b == [] {
      assert a + b == a;
    } else {
      var b' := b[..|b| - 1];
      assert (a + b)[..|a + b| - 1] == a + b';
      FilterAppend(a, b', keep);
    }
  }

  /** `Array.prototype.map`. */
  function Map<A, B>(s: seq<A>, f: A -> B): (r: seq<B>)
    ensures |r| == |s|
  {
    if s == [] then [] else Map(s[..|s| - 1], f) + [f(s[|s| - 1])]
  }

  lemma {:induction false} MapAt<A, B>(s: seq<A>, f: A -> B, k: nat)
    requires k < |s|
    ensures Map(s, f)[k] == f(s[k])
  {
    if k < |s| - 1 {
      MapAt(s[..|s| - 1], f, k);
    }
  }

  lemma {:induction false} MapAppend<A, B>(a: seq<A>, b: seq<A>, f: A -> B)
    ensures Map(a + b, f) == Map(a, f) + Map(b, f)
    decreases |b|
  {
    if b == [] {
      assert a + b == a;
    } else {
      var b' := b[..|b| - 1];
      assert (a + b)[..|a + b| - 1] == a + b';
      MapAppend(a, b', f);
    }
  }

  lemma MapSnoc<A, B>(s: seq<A>, x: A, f: A -> B)
    ensures Map(s + [x], f) == Map(s, f) + [f(x)]
  {
    assert (s + [x])[..|s|] == s;
  }

  /** One more element of a prefix, mapped. */
  lemma MapPrefixSnoc<A, B>(s: seq<A>, f: A -> B, i: nat)
    requires i < |s|
    ensures Map(s[..i + 1], f) == Map(s[..i], f) + [f(s[i])]
  {
    assert s[..i + 1] == s[..i] + [s[i]];
    MapSnoc(s[..i], s[i], f);
  }

  /** The values of a mapped sequence are the images of its elements. */
  lemma {:induction false} MapMembers<A, B>(s: seq<A>, f: A -> B, y: B)
    ensures y in Map(s, f) <==> exists x :: x in s && f(x) == y
    decreases |s|
  {
    if s != [] {
      var init := s[..|s| - 1];
      MapMembers(init, f, y);
      assert s == init + [s[|s| - 1]];
    }
  }

  /** The image of a list around one of its elements. */
  lemma MapAround<A, B>(b: seq<A>, k: nat, f: A -> B)
    requires k < |b|
    ensures Map(b, f) == Map(b[..k], f) + [f(b[k])] + Map(b[k + 1..], f)
  {
    assert b == b[..k + 1] + b[k + 1..];
    MapAppend(b[..k + 1], b[k + 1..], f);
    MapPrefixSnoc(b, f, k);
  }

  lemma MultisetMiddle<T>(lo: seq<T>, x: T, hi: seq<T>)
    ensures multiset(lo + [x] + hi) == multiset(lo + hi) + multiset{x}
  {
  }

  lemma SplitAt<T>(b: seq<T>, k: nat)
    requires k < |b|
    ensures b == b[..k] + [b[k]] + b[k + 1..]
  {
  }

  /** Removing one element from a list removes it and its image. */
  lemma MapRemove<A, B>(b: seq<A>, k: nat, f: A -> B)
    requires k < |b|
    ensures multiset(b) == multiset(b[..k] + b[k + 1..]) + multiset{b[k]}
    ensures multiset(Map(b, f)) == multiset(Map(b[..k] + b[k + 1..], f)) + multiset{f(b[k])}
  {
    SplitAt(b, k);
    MultisetMiddle(b[..k], b[k], b[k + 1..]);
    MapAround(b, k, f);
    MapAppend(b[..k], b[k + 1..], f);
    MultisetMiddle(Map(b[..k], f), f(b[k]), Map(b[k + 1..], f));
  }

  lemma MultisetCancel<T>(m: multiset<T>, n: multiset<T>, x: T)
    requires m + multiset{x} == n + multiset{x}
    ensures m == n
  {
    forall y ensures m[y] == n[y] {
      assert (m + multiset{x})[y] == (n + multiset{x})[y];
    }
  }

  /** Mapping two arrangements of the same elements gives two arrangements
      of the same images. */
  lemma {:induction false} MapPermutation<A, B>(a: seq<A>, b: seq<A>, f: A -> B)
    requires multiset(a) == multiset(b)
    ensures multiset(Map(a, f)) == multiset(Map(b, f))
    decreases |a|
  {
    if a == [] {
      assert |b| == |multiset(b)| == 0;
    } else {
      var a', x := a[..|a| - 1], a[|a| - 1];
      assert a == a' + [x];
      assert x in multiset(b);
      var k :| 0 <= k < |b| && b[k] == x;
      var b' := b[..k] + b[k + 1..];
      MapRemove(b, k, f);
      MultisetCancel(multiset(a'), multiset(b'), x);
      MapPermutation(a', b', f);
      MapSnoc(a', x, f);
    }
  }
}
