/** Sums over sequences and `Distinct`, with the facts the core's totals and error lists rest on. */
module Sequences {

  /** The sum of `f` over the elements of `s`, added from left to right. */
  function SumOf<T>(s: seq<T>, f: T -> real): real {
    if |s| == 0 then 0.0 else SumOf(s[..|s| - 1], f) + f(s[|s| - 1])
  }

  /** Summing a concatenation is summing its parts. */
  lemma {:induction false} SumOfAppend<T>(a: seq<T>, b: seq<T>, f: T -> real)
    ensures SumOf(a + b, f) == SumOf(a, f) + SumOf(b, f)
    decreases |b|
  {
    if |b| == 0 {
      assert a + b == a;
    } else {
      assert (a + b)[..|a + b| - 1] == a + b[..|b| - 1];
      SumOfAppend(a, b[..|b| - 1], f);
    }
  }

  /** Taking one element out of a sequence takes its value out of the sum. */
  lemma SumOfRemove<T>(t: seq<T>, j: nat, f: T -> real)
    requires j < |t|
    ensures SumOf(t, f) == SumOf(t[..j] + t[j + 1..], f) + f(t[j])
  {
    assert t == t[..j] + ([t[j]] + t[j + 1..]);
    SumOfAppend(t[..j], [t[j]] + t[j + 1..], f);
    SumOfAppend([t[j]], t[j + 1..], f);
    SumOfAppend(t[..j], t[j + 1..], f);
    assert SumOf([t[j]], f) == f(t[j]);
  }

  /** Taking the same element out of two permutations of each other leaves permutations. */
  lemma RemoveFromPermutation<T>(s: seq<T>, t: seq<T>, j: nat)
    requires |s| > 0 && j < |t| && multiset(s) == multiset(t) && t[j] == s[|s| - 1]
    ensures multiset(s[..|s| - 1]) == multiset(t[..j] + t[j + 1..])
  {
    var x := s[|s| - 1];
    assert s == s[..|s| - 1] + [x];
    assert t == t[..j] + [x] + t[j + 1..];
    assert multiset(t) == multiset(t[..j]) + multiset([x]) + multiset(t[j + 1..]);
    assert multiset(t[..j] + t[j + 1..]) == multiset(t) - multiset([x]);
    assert multiset(s[..|s| - 1]) == multiset(s) - multiset([x]);
  }

  /** The order of the elements does not change their sum. */
  lemma {:induction false} SumOfPermutation<T>(s: seq<T>, t: seq<T>, f: T -> real)
    requires multiset(s) == multiset(t)
    ensures SumOf(s, f) == SumOf(t, f)
    decreases |s|
  {
    if |s| == 0 {
      assert |t| == |multiset(t)| == 0;
    } else {
      var x := s[|s| - 1];
      assert x in multiset(s);
      var j :| 0 <= j < |t| && t[j] == x;
      RemoveFromPermutation(s, t, j);
      SumOfPermutation(s[..|s| - 1], t[..j] + t[j + 1..], f);
      SumOfRemove(t, j, f);
    }
  }

  predicate NoDuplicates<T(==)>(s: seq<T>) {
    forall i, j :: 0 <= i < j < |s| ==> s[i] != s[j]
  }

  /** The index of the first occurrence of `x` in `s`. */
  function FirstIndex<T(==)>(s: seq<T>, x: T): (k: nat)
    requires x in s
    ensures k < |s| && s[k] == x && x !in s[..k]
  {
    if s[0] == x then 0 else 1 + FirstIndex(s[1..], x)
  }

  /** Behind a different head, an element's first index moves up by one. */
  lemma FirstIndexBehindHead<T>(h: T, s: seq<T>, x: T)
    requires x in s && h != x
    ensures FirstIndex([h] + s, x) == 1 + FirstIndex(s, x)
  {
    assert ([h] + s)[1..] == s;
  }

  /** LINQ `Distinct()`: every element once, in order of first appearance. */
  function Distinct<T(==)>(s: seq<T>): (r: seq<T>)
    ensures forall i :: 0 <= i < |r| ==> r[i] in s
    ensures forall i :: 0 <= i < |s| ==> s[i] in r
    ensures NoDuplicates(r)
  {
    if |s| == 0 then []
    else
      var d := Distinct(s[..|s| - 1]);
      var x := s[|s| - 1];
      if x in d then d else d + [x]
  }

  /** `Distinct` lists the elements in the order of their first appearance. */
  lemma {:induction false} DistinctKeepsFirstAppearanceOrder<T>(s: seq<T>)
    ensures forall i, j :: 0 <= i < j < |Distinct(s)| ==> FirstIndex(s, Distinct(s)[i]) < FirstIndex(s, Distinct(s)[j])
  {
    if |s| > 0 {
      var p := s[..|s| - 1];
      var d := Distinct(p);
      DistinctKeepsFirstAppearanceOrder(p);
      FirstIndexOfPrefix(s, d);
      forall i | 0 <= i < |d| ensures FirstIndex(p, d[i]) < |s| - 1 { }
    }
  }

  /** Appending to a sequence does not move the first occurrence of an element already in it. */
  lemma FirstIndexOfPrefix<T>(s: seq<T>, d: seq<T>)
    requires |s| > 0
    requires forall i :: 0 <= i < |d| ==> d[i] in s[..|s| - 1]
    requires forall i :: 0 <= i < |s| - 1 ==> s[i] in d
    ensures forall x :: x in d ==> x in s && FirstIndex(s, x) == FirstIndex(s[..|s| - 1], x)
    ensures s[|s| - 1] !in d ==> FirstIndex(s, s[|s| - 1]) == |s| - 1
  {
    forall x | x in d
      ensures x in s && FirstIndex(s, x) == FirstIndex(s[..|s| - 1], x)
    {
      FirstIndexOfExtension(s[..|s| - 1], s, x);
    }
    if s[|s| - 1] !in d {
      var k := FirstIndex(s, s[|s| - 1]);
      assert s[..|s| - 1] == s[..k] + s[k..|s| - 1];
      assert k == |s| - 1;
    }
  }

  lemma {:induction false} FirstIndexOfExtension<T>(p: seq<T>, s: seq<T>, x: T)
    requires x in p && |p| <= |s| && p == s[..|p|]
    ensures x in s && FirstIndex(s, x) == FirstIndex(p, x)
  {
    assert s[0] == p[0];
    if p[0] != x {
      FirstIndexOfExtension(p[1..], s[1..], x);
    }
  }

  /** Concatenation associates. */
  lemma ConcatAssociates<T>(a: seq<T>, b: seq<T>, c: seq<T>)
    ensures a + (b + c) == (a + b) + c
  {
  }
}
