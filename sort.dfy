/*
 * `slice::sort_by(|a, b| b.1.cmp(&a.1))` as the search uses it to order
 * scored moves: a stable sort of (item, score) pairs by descending score.
 * The standard library's sort is not part of this model; what the
 * search relies on is its specification, proved here of an insertion
 * sort: the result is non-increasing in score, it is a permutation of
 * the input, and pairs of equal score keep their input order.
 */
module StableSort {

  /** Non-increasing in the score. */
  predicate Descending<T>(s: seq<(T, int)>)
  {
    forall i, j :: 0 <= i < j < |s| ==> s[i].1 >= s[j].1
  }

  /** `x` placed after every pair whose score is at least its own. */
  function InsertDesc<T>(x: (T, int), s: seq<(T, int)>): (r: seq<(T, int)>)
    ensures |r| == |s| + 1
  {
    if |s| == 0 then [x]
    else if s[0].1 < x.1 then [x] + s
    else [s[0]] + InsertDesc(x, s[1..])
  }

  /** Inserting adds `x` and keeps every other pair. */
  lemma {:induction false} InsertDescPermutation<T>(x: (T, int), s: seq<(T, int)>)
    ensures multiset(InsertDesc(x, s)) == multiset(s) + multiset{x}
  {
    if |s| > 0 && s[0].1 >= x.1 {
      InsertDescPermutation(x, s[1..]);
      assert s == [s[0]] + s[1..];
    }
  }

  /** Inserting into a descending list leaves it descending. */
  lemma {:induction false} InsertDescDescending<T>(x: (T, int), s: seq<(T, int)>)
    requires Descending(s)
    ensures Descending(InsertDesc(x, s))
  {
    if |s| > 0 && s[0].1 >= x.1 {
      var rest := InsertDesc(x, s[1..]);
      InsertDescDescending(x, s[1..]);
      InsertDescPermutation(x, s[1..]);
      HeadBound(x, s, rest);
    }
  }

  /** The head of a descending list bounds the list after `x`, no greater than it, is inserted behind it. */
  lemma HeadBound<T>(x: (T, int), s: seq<(T, int)>, rest: seq<(T, int)>)
    requires |s| > 0 && x.1 <= s[0].1
    requires multiset(rest) == multiset(s[1..]) + multiset{x}
    ensures Descending(s) && Descending(rest) ==> Descending([s[0]] + rest)
  {
    if Descending(s) && Descending(rest) {
      forall j | 0 <= j < |rest|
        ensures rest[j].1 <= s[0].1
      {
        assert rest[j] in multiset(rest);
        if rest[j] != x {
          assert rest[j] in multiset(s[1..]);
          var i :| 0 <= i < |s[1..]| && s[1..][i] == rest[j];
          assert s[i + 1] == rest[j];
        }
      }
      var r := [s[0]] + rest;
      forall i, j | 0 <= i < j < |r|
        ensures r[i].1 >= r[j].1
      {
        if i > 0 {
          assert r[i] == rest[i - 1] && r[j] == rest[j - 1];
        } else {
          assert r[j] == rest[j - 1];
        }
      }
    }
  }

  /** The stable descending sort, one pair inserted at a time from the front of the input. */
  function SortDesc<T>(xs: seq<(T, int)>): (r: seq<(T, int)>)
    ensures |r| == |xs|
  {
    if |xs| == 0 then []
    else InsertDesc(xs[|xs| - 1], SortDesc(xs[..|xs| - 1]))
  }

  /** Sorting keeps the pairs: the same ones, each as often. */
  lemma {:induction false} SortDescPermutation<T>(xs: seq<(T, int)>)
    ensures multiset(SortDesc(xs)) == multiset(xs)
  {
    if |xs| > 0 {
      var n := |xs| - 1;
      SortDescPermutation(xs[..n]);
      InsertDescPermutation(xs[n], SortDesc(xs[..n]));
      assert xs == xs[..n] + [xs[n]];
    }
  }

  /** The sorted list is non-increasing in the score. */
  lemma {:induction false} SortDescDescending<T>(xs: seq<(T, int)>)
    ensures Descending(SortDesc(xs))
  {
    if |xs| > 0 {
      var n := |xs| - 1;
      SortDescDescending(xs[..n]);
      InsertDescDescending(xs[n], SortDesc(xs[..n]));
    }
  }

  /** The pairs of score `k`, in order. */
  function WithScore<T>(s: seq<(T, int)>, k: int): (r: seq<(T, int)>)
  {
    if |s| == 0 then []
    else WithScore(s[..|s| - 1], k) + (if s[|s| - 1].1 == k then [s[|s| - 1]] else [])
  }

  lemma {:induction false} WithScoreAppend<T>(a: seq<(T, int)>, b: seq<(T, int)>, k: int)
    ensures WithScore(a + b, k) == WithScore(a, k) + WithScore(b, k)
    decreases |b|
  {
    if |b| == 0 {
      assert a + b == a;
    } else {
      var n := |b| - 1;
      assert (a + b)[..|a + b| - 1] == a + b[..n];
      WithScoreAppend(a, b[..n], k);
    }
  }

  /** In a descending list every pair of score `k` sits before the inserted pair of score `k`. */
  lemma {:induction false} InsertKeepsOrder<T>(x: (T, int), s: seq<(T, int)>, k: int)
    requires Descending(s)
    ensures WithScore(InsertDesc(x, s), k) == WithScore(s, k) + WithScore([x], k)
    decreases |s|, 1
  {
    if |s| == 0 {
      assert InsertDesc(x, s) == [x];
      assert WithScore(s, k) == [];
    } else if s[0].1 < x.1 {
      InsertInFront(x, s, k);
    } else {
      InsertBehind(x, s, k);
    }
  }

  lemma InsertInFront<T>(x: (T, int), s: seq<(T, int)>, k: int)
    requires Descending(s) && |s| > 0 && s[0].1 < x.1
    ensures WithScore(InsertDesc(x, s), k) == WithScore(s, k) + WithScore([x], k)
  {
    assert InsertDesc(x, s) == [x] + s;
    WithScoreAppend([x], s, k);
    WithSingle(x, k);
    if x.1 == k {
      WithNoneAbove(s, k);
    }
  }

  lemma {:induction false} InsertBehind<T>(x: (T, int), s: seq<(T, int)>, k: int)
    requires Descending(s) && |s| > 0 && x.1 <= s[0].1
    ensures WithScore(InsertDesc(x, s), k) == WithScore(s, k) + WithScore([x], k)
    decreases |s|, 0
  {
    var rest := s[1..];
    DescendingTail(s);
    var inserted := InsertDesc(x, rest);
    InsertDescBehind(x, s);
    InsertKeepsOrder(x, rest, k);
    WithScoreAppend([s[0]], inserted, k);
    WithScoreAppend([s[0]], rest, k);
    assert [s[0]] + rest == s;
  }

  lemma DescendingTail<T>(s: seq<(T, int)>)
    requires Descending(s) && |s| > 0
    ensures Descending(s[1..])
  {
  }

  /** `x`, no greater than the head, goes behind it. */
  lemma InsertDescBehind<T>(x: (T, int), s: seq<(T, int)>)
    requires |s| > 0 && x.1 <= s[0].1
    ensures InsertDesc(x, s) == [s[0]] + InsertDesc(x, s[1..])
  {
  }

  lemma WithSingle<T>(x: (T, int), k: int)
    ensures WithScore([x], k) == if x.1 == k then [x] else []
  {
    assert [x][..0] == [];
  }

  /** A descending list whose head is below `k` has no pair of score `k`. */
  lemma WithNoneAbove<T>(s: seq<(T, int)>, k: int)
    requires Descending(s) && |s| > 0 && s[0].1 < k
    ensures WithScore(s, k) == []
  {
    assert forall i :: 0 <= i < |s| ==> s[i].1 <= s[0].1;
    WithNoneBelow(s, k, |s|);
    assert s[..|s|] == s;
  }

  lemma {:induction false} WithNoneBelow<T>(s: seq<(T, int)>, k: int, n: nat)
    requires n <= |s| && forall i :: 0 <= i < n ==> s[i].1 != k
    ensures WithScore(s[..n], k) == []
  {
    if n > 0 {
      assert s[..n][..n - 1] == s[..n - 1];
      WithNoneBelow(s, k, n - 1);
    }
  }

  /** Stability: for every score, the pairs of that score appear in their input order. */
  lemma {:induction false} SortDescStable<T>(xs: seq<(T, int)>, k: int)
    ensures WithScore(SortDesc(xs), k) == WithScore(xs, k)
  {
    if |xs| > 0 {
      var n := |xs| - 1;
      SortDescStable(xs[..n], k);
      SortDescDescending(xs[..n]);
      InsertKeepsOrder(xs[n], SortDesc(xs[..n]), k);
      WithSingle(xs[n], k);
    }
  }

  /** The items of the pairs, in order. */
  function Firsts<T>(s: seq<(T, int)>): (r: seq<T>)
    ensures |r| == |s|
    ensures forall i :: 0 <= i < |s| ==> r[i] == s[i].0
  {
    seq(|s|, i requires 0 <= i < |s| => s[i].0)
  }

  /** Sorting keeps the items: the same ones, each as often. */
  lemma FirstsPermutation<T>(xs: seq<(T, int)>, ys: seq<(T, int)>)
    requires multiset(xs) == multiset(ys)
    ensures forall t :: t in Firsts(xs) <==> t in Firsts(ys)
  {
    forall t ensures t in Firsts(xs) ==> t in Firsts(ys) {
      if t in Firsts(xs) {
        var i :| 0 <= i < |xs| && Firsts(xs)[i] == t;
        assert xs[i] in multiset(ys);
        var j :| 0 <= j < |ys| && ys[j] == xs[i];
        assert Firsts(ys)[j] == t;
      }
    }
    forall t ensures t in Firsts(ys) ==> t in Firsts(xs) {
      if t in Firsts(ys) {
        var i :| 0 <= i < |ys| && Firsts(ys)[i] == t;
        assert ys[i] in multiset(xs);
        var j :| 0 <= j < |xs| && xs[j] == ys[i];
        assert Firsts(xs)[j] == t;
      }
    }
  }
}
