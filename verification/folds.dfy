/** Sums of an integer measure over a list, as a right-recursive sum and as
    JavaScript's `reduce` (a left fold). */
module Folds {
  import opened Seqs

  function SumBy<T>(s: seq<T>, f: T -> int): (sum: int)
  {
    if |s| == 0 then 0 else f(s[0]) + SumBy(s[1..], f)
  }

  /** `s.reduce((acc, x) => acc + f(x), acc)`. */
  function FoldBy<T>(s: seq<T>, f: T -> int, acc: int): (total: int)
  {
    if |s| == 0 then acc else FoldBy(s[1..], f, acc + f(s[0]))
  }

  /** The left fold from `acc` adds the sum to `acc`. */
  lemma {:induction false} FoldIsSum<T>(s: seq<T>, f: T -> int, acc: int)
    ensures FoldBy(s, f, acc) == acc + SumBy(s, f)
  {
    if |s| > 0 {
      FoldIsSum(s[1..], f, acc + f(s[0]));
    }
  }

  lemma {:induction false} SumAppend<T>(a: seq<T>, b: seq<T>, f: T -> int)
    ensures SumBy(a + b, f) == SumBy(a, f) + SumBy(b, f)
  {
    if |a| == 0 {
      assert a + b == b;
    } else {
      assert (a + b)[1..] == a[1..] + b;
      SumAppend(a[1..], b, f);
    }
  }

  /** Taking one element out of a list takes its measure out of the sum. */
  lemma {:induction false} RemoveOneSum<T>(b: seq<T>, j: nat, f: T -> int)
    requires j < |b|
    ensures SumBy(b, f) == f(b[j]) + SumBy(b[..j] + b[j + 1..], f)
  {
    if j == 0 {
      assert b[..0] + b[1..] == b[1..];
    } else {
      var t := b[1..];
      RemoveOneSum(t, j - 1, f);
      assert b[..j] + b[j + 1..] == [b[0]] + (t[..j - 1] + t[j..]);
    }
  }

  /** The sum does not depend on the order of the elements. */
  lemma {:induction false} SumPermutation<T>(a: seq<T>, b: seq<T>, f: T -> int)
    requires multiset(a) == multiset(b)
    ensures SumBy(a, f) == SumBy(b, f)
    decreases |a|
  {
    if |a| == 0 {
      assert |multiset(b)| == 0;
    } else {
      var x := a[0];
      assert x in multiset(b);
      var j :| 0 <= j < |b| && b[j] == x;
      var rest := b[..j] + b[j + 1..];
      RemoveOneMultiset(b, j);
      RemoveOneSum(b, j, f);
      assert a == [x] + a[1..];
      assert multiset(a) == multiset{x} + multiset(a[1..]);
      assert multiset(a[1..]) == multiset(a) - multiset{x};
      SumPermutation(a[1..], rest, f);
    }
  }
}
