/** Grouping a list into labelled buckets the way the consumption screen does:
    map every element to its label, keep each label at its first occurrence
    (`indexOf(label) === index`), then filter the list once per label. */
module Grouping {
  import opened Seqs

  datatype Bucket<K, T> = Bucket(title: K, products: seq<T>)

  /** The label of every element, in order. */
  function Labels<T, K>(xs: seq<T>, key: T -> K): (ls: seq<K>)
    ensures |ls| == |xs|
    ensures forall i :: 0 <= i < |xs| ==> ls[i] == key(xs[i])
  {
    seq(|xs|, i requires 0 <= i < |xs| => key(xs[i]))
  }

  /** The elements of `s` from position `i` on that are first occurrences. */
  function KeepFirst<K(==,!new)>(s: seq<K>, i: nat): (r: seq<K>)
    requires i <= |s|
    ensures forall x :: x in r <==> x in s && IndexOf(s, x) >= i
    ensures forall a :: 0 <= a < |r| ==> IndexOf(s, r[a]) >= i
    ensures forall a, b :: 0 <= a < b < |r| ==> IndexOf(s, r[a]) < IndexOf(s, r[b])
    decreases |s| - i
  {
    if i == |s| then []
    else (if IndexOf(s, s[i]) == i then [s[i]] else []) + KeepFirst(s, i + 1)
  }

  /** `s.filter((x, index, arr) => arr.indexOf(x) === index)`: every value once,
      in the order of its first occurrence. */
  function Unique<K(==,!new)>(s: seq<K>): (r: seq<K>)
    ensures forall x :: x in r <==> x in s
    ensures NoDup(r)
    ensures forall a, b :: 0 <= a < b < |r| ==> IndexOf(s, r[a]) < IndexOf(s, r[b])
  {
    KeepFirst(s, 0)
  }

  /** The elements whose label is `k`, in their original order. */
  function Select<T(!new), K(==,!new)>(xs: seq<T>, key: T -> K, k: K): (r: seq<T>)
    ensures |r| <= |xs|
    ensures forall i :: 0 <= i < |r| ==> key(r[i]) == k
  {
    if |xs| == 0 then []
    else (if key(xs[0]) == k then [xs[0]] else []) + Select(xs[1..], key, k)
  }

  /** `rank` strictly increases along `s`. */
  predicate Increasing<T>(s: seq<T>, rank: T -> int)
  {
    forall i, j :: 0 <= i < j < |s| ==> rank(s[i]) < rank(s[j])
  }

  /** The selection keeps the input's order: a rank that strictly increases
      along the input strictly increases along the selection. */
  lemma {:induction false} SelectIncreasing<T(!new), K(!new)>(xs: seq<T>, key: T -> K, k: K, rank: T -> int)
    requires Increasing(xs, rank)
    ensures Increasing(Select(xs, key, k), rank)
  {
    if |xs| > 0 {
      var t := xs[1..];
      SelectIncreasing(t, key, k, rank);
      var rest := Select(t, key, k);
      forall y | y in rest
        ensures rank(xs[0]) < rank(y)
      {
        SelectMember(t, key, k, y);
        var m :| 0 <= m < |t| && t[m] == y;
        assert xs[m + 1] == y;
      }
      if key(xs[0]) == k {
        var s := Select(xs, key, k);
        assert s == [xs[0]] + rest;
        forall i, j | 0 <= i < j < |s|
          ensures rank(s[i]) < rank(s[j])
        {
          assert s[j] == rest[j - 1];
          if i == 0 {
            assert s[0] == xs[0] && rest[j - 1] in rest;
          } else {
            assert s[i] == rest[i - 1];
          }
        }
      }
    }
  }

  /** The selection holds every element labelled `k` exactly as often as the
      list does, and nothing else. */
  lemma {:induction false} SelectCounts<T(!new), K(!new)>(xs: seq<T>, key: T -> K, k: K)
    ensures forall y :: multiset(Select(xs, key, k))[y] == if key(y) == k then multiset(xs)[y] else 0
  {
    if |xs| > 0 {
      SelectCounts(xs[1..], key, k);
      assert xs == [xs[0]] + xs[1..];
    }
  }

  lemma SelectMember<T(!new), K(!new)>(xs: seq<T>, key: T -> K, k: K, y: T)
    requires y in Select(xs, key, k)
    ensures y in xs && key(y) == k
  {
    SelectCounts(xs, key, k);
    assert multiset(Select(xs, key, k))[y] > 0;
  }

  /** Filtering distributes over concatenation, so it keeps relative order. */
  lemma {:induction false} SelectAppend<T(!new), K(!new)>(a: seq<T>, b: seq<T>, key: T -> K, k: K)
    ensures Select(a + b, key, k) == Select(a, key, k) + Select(b, key, k)
  {
    if |a| == 0 {
      assert a + b == b;
    } else {
      assert (a + b)[1..] == a[1..] + b;
      SelectAppend(a[1..], b, key, k);
    }
  }

  /** One bucket per label of `ls`, in that order, each holding the matching elements. */
  function GroupBy<T(!new), K(==,!new)>(xs: seq<T>, key: T -> K, ls: seq<K>): (r: seq<Bucket<K, T>>)
    ensures |r| == |ls|
    ensures forall i :: 0 <= i < |r| ==> r[i].title == ls[i] && r[i].products == Select(xs, key, ls[i])
  {
    if |ls| == 0 then []
    else [Bucket(ls[0], Select(xs, key, ls[0]))] + GroupBy(xs, key, ls[1..])
  }

  /** The screen's grouping: the distinct labels in first-occurrence order, each with its elements. */
  function Group<T(!new), K(==,!new)>(xs: seq<T>, key: T -> K): (bs: seq<Bucket<K, T>>)
  {
    GroupBy(xs, key, Unique(Labels(xs, key)))
  }

  function Titles<K, T>(bs: seq<Bucket<K, T>>): (ts: seq<K>)
    ensures |ts| == |bs|
    ensures forall i :: 0 <= i < |bs| ==> ts[i] == bs[i].title
  {
    seq(|bs|, i requires 0 <= i < |bs| => bs[i].title)
  }

  /** All bucket contents, one bucket after the other. */
  function Flatten<K, T>(bs: seq<Bucket<K, T>>): (r: seq<T>)
  {
    if |bs| == 0 then [] else bs[0].products + Flatten(bs[1..])
  }

  /** Titles are the distinct labels, in the order their first element appears;
      every title labels some element and every label has a title. */
  lemma GroupTitles<T(!new), K(!new)>(xs: seq<T>, key: T -> K)
    ensures NoDup(Titles(Group(xs, key)))
    ensures forall y :: y in xs ==> key(y) in Titles(Group(xs, key))
    ensures forall k :: k in Titles(Group(xs, key)) ==> exists y :: y in xs && key(y) == k
    ensures forall a, b :: 0 <= a < b < |Group(xs, key)| ==>
      IndexOf(Labels(xs, key), Group(xs, key)[a].title) < IndexOf(Labels(xs, key), Group(xs, key)[b].title)
  {
    var ls := Labels(xs, key);
    var ts := Titles(Group(xs, key));
    assert ts == Unique(ls);
    forall y | y in xs
      ensures key(y) in ts
    {
      LabelListed(xs, key, y);
    }
    forall k | k in ts
      ensures exists y :: y in xs && key(y) == k
    {
      var i := IndexOf(ls, k);
      assert key(xs[i]) == k;
    }
  }

  /** When the labels never go up along the list (by `rank`, which tells
      distinct labels apart), the buckets come out with strictly decreasing
      titles: the first bucket has the highest label. */
  lemma GroupTitlesDescending<T(!new), K(!new)>(xs: seq<T>, key: T -> K, rank: K -> int)
    requires forall i, j :: 0 <= i < j < |xs| ==> rank(key(xs[i])) >= rank(key(xs[j]))
    requires forall i, j :: 0 <= i < |xs| && 0 <= j < |xs| && rank(key(xs[i])) == rank(key(xs[j])) ==> key(xs[i]) == key(xs[j])
    ensures forall a, b :: 0 <= a < b < |Group(xs, key)| ==> rank(Group(xs, key)[a].title) > rank(Group(xs, key)[b].title)
  {
    forall a, b | 0 <= a < b < |Group(xs, key)|
      ensures rank(Group(xs, key)[a].title) > rank(Group(xs, key)[b].title)
    {
      DescendingPair(xs, key, rank, a, b);
    }
  }

  lemma DescendingPair<T(!new), K(!new)>(xs: seq<T>, key: T -> K, rank: K -> int, a: nat, b: nat)
    requires forall i, j :: 0 <= i < j < |xs| ==> rank(key(xs[i])) >= rank(key(xs[j]))
    requires forall i, j :: 0 <= i < |xs| && 0 <= j < |xs| && rank(key(xs[i])) == rank(key(xs[j])) ==> key(xs[i]) == key(xs[j])
    requires a < b < |Group(xs, key)|
    ensures rank(Group(xs, key)[a].title) > rank(Group(xs, key)[b].title)
  {
    var i, j := FirstOccurrences(xs, key, a, b);
    assert rank(key(xs[i])) >= rank(key(xs[j]));
  }

  /** Two buckets' titles are distinct and first occur in bucket order. */
  lemma FirstOccurrences<T(!new), K(!new)>(xs: seq<T>, key: T -> K, a: nat, b: nat) returns (i: nat, j: nat)
    requires a < b < |Group(xs, key)|
    ensures i < j < |xs|
    ensures key(xs[i]) == Group(xs, key)[a].title && key(xs[j]) == Group(xs, key)[b].title
    ensures Group(xs, key)[a].title != Group(xs, key)[b].title
  {
    var ls := Labels(xs, key);
    var u := Unique(ls);
    var g := GroupBy(xs, key, u);
    assert g == Group(xs, key);
    var ta, tb := g[a].title, g[b].title;
    assert ta == u[a] && tb == u[b];
    assert ta in ls && tb in ls;
    i, j := IndexOf(ls, ta), IndexOf(ls, tb);
  }


  /** No elements, no buckets. */
  lemma GroupEmpty<T(!new), K(!new)>(xs: seq<T>, key: T -> K)
    requires |xs| == 0
    ensures Group(xs, key) == []
  {
  }

  /** Every bucket of a grouping holds at least one element. */
  lemma GroupNonEmpty<T(!new), K(!new)>(xs: seq<T>, key: T -> K)
    ensures forall b :: b in Group(xs, key) ==> |b.products| > 0
  {
    var ls := Labels(xs, key);
    var g := Group(xs, key);
    forall b | b in g
      ensures |b.products| > 0
    {
      var i :| 0 <= i < |g| && g[i] == b;
      assert b.title in Titles(g);
      var j := IndexOf(ls, b.title);
      assert key(xs[j]) == b.title;
      SelectCounts(xs, key, b.title);
      assert multiset(b.products)[xs[j]] == multiset(xs)[xs[j]] > 0;
    }
  }

  /** Over distinct labels, the buckets together hold each element exactly as
      often as the list does when its label is among them, and never otherwise. */
  lemma {:induction false} GroupByCounts<T(!new), K(!new)>(xs: seq<T>, key: T -> K, ls: seq<K>)
    requires NoDup(ls)
    ensures forall y :: multiset(Flatten(GroupBy(xs, key, ls)))[y] == if key(y) in ls then multiset(xs)[y] else 0
  {
    if |ls| > 0 {
      var g := GroupBy(xs, key, ls);
      assert g[1..] == GroupBy(xs, key, ls[1..]);
      assert NoDup(ls[1..]);
      GroupByCounts(xs, key, ls[1..]);
      SelectCounts(xs, key, ls[0]);
      assert Flatten(g) == Select(xs, key, ls[0]) + Flatten(g[1..]);
      forall y
        ensures multiset(Flatten(g))[y] == if key(y) in ls then multiset(xs)[y] else 0
      {
        assert key(y) in ls <==> key(y) == ls[0] || key(y) in ls[1..];
        if key(y) == ls[0] {
          assert key(y) !in ls[1..];
        }
      }
    }
  }

  /** The label of a listed element is one of the grouping's titles. */
  lemma LabelListed<T(!new), K(!new)>(xs: seq<T>, key: T -> K, y: T)
    requires y in xs
    ensures key(y) in Unique(Labels(xs, key))
  {
    var i :| 0 <= i < |xs| && xs[i] == y;
    var ls := Labels(xs, key);
    assert ls[i] == key(y);
    assert key(y) in ls;
  }

  /** The buckets partition the list: together they hold exactly its
      elements, with multiplicity. */
  lemma GroupPartition<T(!new), K(!new)>(xs: seq<T>, key: T -> K)
    ensures multiset(Flatten(Group(xs, key))) == multiset(xs)
  {
    var ls := Unique(Labels(xs, key));
    var g := GroupBy(xs, key, ls);
    assert g == Group(xs, key);
    GroupByCounts(xs, key, ls);
    var f := Flatten(g);
    forall y
      ensures multiset(f)[y] == multiset(xs)[y]
    {
      if y in xs {
        LabelListed(xs, key, y);
      } else {
        assert multiset(xs)[y] == 0;
      }
    }
    assert multiset(f) == multiset(xs);
  }

  lemma GroupMember<T(!new), K(!new)>(xs: seq<T>, key: T -> K, b: Bucket<K, T>, y: T)
    requires b in Group(xs, key) && y in b.products
    ensures y in xs && key(y) == b.title
  {
    var ls := Unique(Labels(xs, key));
    var g := GroupBy(xs, key, ls);
    var i :| 0 <= i < |g| && g[i] == b;
    assert b.products == Select(xs, key, ls[i]);
    SelectMember(xs, key, ls[i], y);
  }

  /** A bucket holds only elements of the list labelled with its title. */
  lemma GroupMembers<T(!new), K(!new)>(xs: seq<T>, key: T -> K)
    ensures forall b, y :: b in Group(xs, key) && y in b.products ==> y in xs && key(y) == b.title
  {
    forall b, y | b in Group(xs, key) && y in b.products
      ensures y in xs && key(y) == b.title
    {
      GroupMember(xs, key, b, y);
    }
  }


  /** Each element of the list sits in the bucket titled by its label. */
  lemma GroupHome<T(!new), K(!new)>(xs: seq<T>, key: T -> K, y: T)
    requires y in xs
    ensures exists b :: b in Group(xs, key) && b.title == key(y) && y in b.products
  {
    var a := GroupHomeAt(xs, key, y);
    assert Group(xs, key)[a] in Group(xs, key);
  }

  /** The position of that bucket. */
  lemma GroupHomeAt<T(!new), K(!new)>(xs: seq<T>, key: T -> K, y: T) returns (a: nat)
    requires y in xs
    ensures a < |Group(xs, key)| && Group(xs, key)[a].title == key(y) && y in Group(xs, key)[a].products
  {
    var ls := Unique(Labels(xs, key));
    var g := GroupBy(xs, key, ls);
    assert g == Group(xs, key);
    LabelListed(xs, key, y);
    a := IndexOf(ls, key(y));
    var b := g[a];
    assert b.title == key(y);
    assert b.products == Select(xs, key, key(y));
    SelectCounts(xs, key, key(y));
    assert multiset(b.products)[y] == multiset(xs)[y];
    assert y in multiset(b.products);
  }
}
