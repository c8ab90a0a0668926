/** Sequence helpers: `Array.prototype.flat`, occurrence counts, subsequences. */
module Seqs {

  function Min(a: int, b: int): int {
    if a <= b then a else b
  }

  /** `Array.prototype.flat` on a list of lists. */
  function Flatten<T>(ss: seq<seq<T>>): seq<T> {
    if |ss| == 0 then [] else ss[0] + Flatten(ss[1..])
  }

  /** Flattening after appending one list appends that list's elements. */
  lemma {:induction false} FlattenAppend<T>(ss: seq<seq<T>>, s: seq<T>)
    ensures Flatten(ss + [s]) == Flatten(ss) + s
  {
    if |ss| == 0 {
      assert ss + [s] == [s];
    } else {
      FlattenAppend(ss[1..], s);
      assert (ss + [s])[1..] == ss[1..] + [s];
    }
  }

  /** A sequence of three or more is its first three elements and the rest. */
  lemma SplitThree<T>(s: seq<T>)
    requires |s| >= 3
    ensures s == [s[0], s[1], s[2]] + s[3..]
  {
    assert s[..3] == [s[0], s[1], s[2]];
    assert s == s[..3] + s[3..];
  }

  /** Concatenation regroups freely. */
  lemma AppendAssoc<T>(a: seq<T>, b: seq<T>, c: seq<T>)
    ensures a + b + c == a + (b + c)
  {
  }

  /** The number of positions of `s` holding `x` (counted from the end, so
      that a growing prefix adds one term). */
  function Count<T(==)>(s: seq<T>, x: T): nat
    ensures Count(s, x) <= |s|
  {
    if |s| == 0 then 0 else Count(s[..|s| - 1], x) + (if s[|s| - 1] == x then 1 else 0)
  }

  /** A value that does not occur is counted zero times. */
  lemma {:induction false} CountAbsent<T>(s: seq<T>, x: T)
    requires x !in s
    ensures Count(s, x) == 0
  {
    if |s| > 0 {
      assert forall y :: y in s[..|s| - 1] ==> y in s;
      CountAbsent(s[..|s| - 1], x);
    }
  }

  /** Appending at most one value adds one to its count when it is `x`. */
  lemma CountSnoc<T>(s: seq<T>, last: seq<T>, x: T)
    requires |last| <= 1
    ensures Count(s + last, x) == Count(s, x) + (if last == [x] then 1 else 0)
  {
    if |last| == 1 {
      assert (s + last)[..|s|] == s;
    } else {
      assert s + last == s;
    }
  }

  /** No value occurs twice. */
  predicate Distinct<T(==)>(s: seq<T>) {
    forall i, j :: 0 <= i < j < |s| ==> s[i] != s[j]
  }

  /** `a` is `b` with some elements left out, the rest in their order. */
  predicate Subseq<T(==)>(a: seq<T>, b: seq<T>)
    decreases |b|
  {
    if |a| == 0 then true
    else if |b| == 0 then false
    else (a[0] == b[0] && Subseq(a[1..], b[1..])) || Subseq(a, b[1..])
  }
}
