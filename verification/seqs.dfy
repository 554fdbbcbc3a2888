/** Small facts about sequences shared by the grouping and string code. */
module Seqs {

  /** Position of the first `x` in `s`, or `|s|` when `x` does not occur
      (JavaScript's `indexOf`, with `|s|` standing for -1). */
  function IndexOf<T(==)>(s: seq<T>, x: T): (i: nat)
    ensures i <= |s|
    ensures i < |s| ==> s[i] == x
    ensures forall j :: 0 <= j < i ==> s[j] != x
    ensures i == |s| <==> x !in s
  {
    if |s| == 0 then 0
    else if s[0] == x then 0
    else 1 + IndexOf(s[1..], x)
  }

  /** Number of occurrences of `x` in `s`. */
  function Count<T(==)>(s: seq<T>, x: T): (n: nat)
  {
    if |s| == 0 then 0
    else (if s[0] == x then 1 else 0) + Count(s[1..], x)
  }

  lemma {:induction false} CountAppend<T>(a: seq<T>, b: seq<T>, x: T)
    ensures Count(a + b, x) == Count(a, x) + Count(b, x)
  {
    if |a| == 0 {
      assert a + b == b;
    } else {
      assert (a + b)[1..] == a[1..] + b;
      CountAppend(a[1..], b, x);
    }
  }

  lemma {:induction false} CountZero<T>(s: seq<T>, x: T)
    ensures Count(s, x) == 0 <==> x !in s
  {
    if |s| > 0 {
      CountZero(s[1..], x);
      assert s == [s[0]] + s[1..];
    }
  }

  /** No element occurs twice. */
  predicate NoDup<T(==)>(s: seq<T>)
  {
    forall i, j :: 0 <= i < j < |s| ==> s[i] != s[j]
  }

  /** Taking one element out of a list takes it out of the multiset. */
  lemma RemoveOneMultiset<T>(b: seq<T>, j: nat)
    requires j < |b|
    ensures multiset(b[..j] + b[j + 1..]) == multiset(b) - multiset{b[j]}
  {
    var p, x, q := b[..j], b[j], b[j + 1..];
    assert b == p + [x] + q;
    assert multiset(b) == multiset(p) + multiset{x} + multiset(q);
    assert multiset(p + q) == multiset(p) + multiset(q);
  }

  /** Applying `f` to every element, in order. */
  function MapSeq<T, U>(s: seq<T>, f: T -> U): (r: seq<U>)
    ensures |r| == |s|
    ensures forall i :: 0 <= i < |s| ==> r[i] == f(s[i])
  {
    if |s| == 0 then [] else [f(s[0])] + MapSeq(s[1..], f)
  }

  lemma MapSeqAppend<T, U>(a: seq<T>, b: seq<T>, f: T -> U)
    ensures MapSeq(a + b, f) == MapSeq(a, f) + MapSeq(b, f)
  {
    if |a| > 0 {
      assert (a + b)[1..] == a[1..] + b;
      MapSeqAppend(a[1..], b, f);
    }
  }

  /** Dropping a later element keeps the head in front. */
  lemma DropAt<T>(b: seq<T>, j: nat)
    requires 0 < j < |b|
    ensures b[..j] + b[j + 1..] == [b[0]] + (b[1..][..j - 1] + b[1..][j..])
  {
  }

  /** Taking one element out before mapping takes its image out after. */
  lemma {:induction false} MapRemove<T, U>(b: seq<T>, j: nat, f: T -> U)
    requires j < |b|
    ensures multiset(MapSeq(b, f)) == multiset(MapSeq(b[..j] + b[j + 1..], f)) + multiset{f(b[j])}
  {
    var m := MapSeq(b[1..], f);
    assert MapSeq(b, f) == [f(b[0])] + m;
    assert multiset([f(b[0])] + m) == multiset{f(b[0])} + multiset(m);
    if j == 0 {
      assert b[..j] + b[j + 1..] == b[1..];
      assert multiset(MapSeq(b[..j] + b[j + 1..], f)) == multiset(m);
    } else {
      var t := b[1..];
      MapRemove(t, j - 1, f);
      var rest := t[..j - 1] + t[j..];
      DropAt(b, j);
      var mr := MapSeq(rest, f);
      assert MapSeq([b[0]] + rest, f) == [f(b[0])] + mr;
      assert multiset([f(b[0])] + mr) == multiset{f(b[0])} + multiset(mr);
    }
  }

  lemma MapHead<T, U>(a: seq<T>, f: T -> U)
    requires |a| > 0
    ensures multiset(MapSeq(a, f)) == multiset{f(a[0])} + multiset(MapSeq(a[1..], f))
  {
    var m := MapSeq(a[1..], f);
    assert MapSeq(a, f) == [f(a[0])] + m;
    assert multiset([f(a[0])] + m) == multiset{f(a[0])} + multiset(m);
  }

  /** Matching the head of one arrangement in the other leaves two
      arrangements of the same remaining elements. */
  lemma RemoveMatched<T>(a: seq<T>, b: seq<T>, j: nat)
    requires multiset(a) == multiset(b) && |a| > 0 && j < |b| && b[j] == a[0]
    ensures multiset(a[1..]) == multiset(b[..j] + b[j + 1..])
  {
    RemoveOneMultiset(b, j);
    assert a == [a[0]] + a[1..];
    assert multiset(a) == multiset{a[0]} + multiset(a[1..]);
  }

  /** Mapping two arrangements of the same elements gives two arrangements of
      the same images. */
  lemma {:induction false} MapPermutation<T, U>(a: seq<T>, b: seq<T>, f: T -> U)
    requires multiset(a) == multiset(b)
    ensures multiset(MapSeq(a, f)) == multiset(MapSeq(b, f))
    decreases |a|
  {
    if |a| == 0 {
      assert |multiset(b)| == 0;
    } else {
      assert a[0] in multiset(b);
      var j :| 0 <= j < |b| && b[j] == a[0];
      RemoveMatched(a, b, j);
      MapPermutation(a[1..], b[..j] + b[j + 1..], f);
      MapHead(a, f);
      MapRemove(b, j, f);
    }
  }
}
