/** Ordering by descending score, as both result lists of the user-interface
    layer use it: `sort_by` with the comparator `b.score` against `a.score`
    (a stable sort), followed by `take(k)`.

    Scores are `f32` in the program; here they are exact reals, so the
    comparator never meets NaN. */
module Ranking {
  import opened Common

  /** An element together with the score it is ranked by. */
  datatype Scored<T> = Scored(item: T, score: real)

  /** Every element scores at least as high as every later one. */
  predicate SortedDesc<T>(xs: seq<Scored<T>>)
  {
    forall i, j :: 0 <= i < j < |xs| ==> xs[i].score >= xs[j].score
  }

  /** No element scores above `b`. */
  predicate AllAtMost<T>(xs: seq<Scored<T>>, b: real)
  {
    forall i :: 0 <= i < |xs| ==> xs[i].score <= b
  }

  /** `x` placed after every element of `xs` that scores at least as high,
      so that ties keep their arrival order. */
  function InsertDesc<T>(x: Scored<T>, xs: seq<Scored<T>>): (r: seq<Scored<T>>)
    ensures multiset(r) == multiset(xs) + multiset{x}
    ensures |r| == |xs| + 1
  {
    if xs == [] then [x]
    else if xs[0].score >= x.score then
      assert xs == [xs[0]] + xs[1..];
      [xs[0]] + InsertDesc(x, xs[1..])
    else
      [x] + xs
  }

  /** Inserting into a list in descending order keeps it in that order. */
  lemma {:induction false} InsertKeepsOrder<T>(x: Scored<T>, xs: seq<Scored<T>>)
    requires SortedDesc(xs)
    ensures SortedDesc(InsertDesc(x, xs))
    decreases |xs|
  {
    if xs != [] && xs[0].score >= x.score {
      var tail := xs[1..];
      var r := InsertDesc(x, tail);
      InsertKeepsOrder(x, tail);
      forall i | 0 <= i < |r|
        ensures r[i].score <= xs[0].score
      {
        assert r[i] in multiset(tail) + multiset{x};
        if r[i] != x {
          var j :| 0 <= j < |tail| && tail[j] == r[i];
          assert xs[j + 1] == r[i];
        }
      }
    }
  }

  /** The list after the stable descending sort: each element in turn is
      inserted after every earlier element that scores at least as high. */
  function SortDesc<T>(xs: seq<Scored<T>>): (r: seq<Scored<T>>)
    ensures multiset(r) == multiset(xs)
    ensures |r| == |xs|
  {
    if xs == [] then []
    else
      assert xs == xs[..|xs| - 1] + [xs[|xs| - 1]];
      InsertDesc(xs[|xs| - 1], SortDesc(xs[..|xs| - 1]))
  }

  /** The sort's result is in descending order. */
  lemma {:induction false} SortIsDescending<T>(xs: seq<Scored<T>>)
    ensures SortedDesc(SortDesc(xs))
    decreases |xs|
  {
    if xs != [] {
      SortIsDescending(xs[..|xs| - 1]);
      InsertKeepsOrder(xs[|xs| - 1], SortDesc(xs[..|xs| - 1]));
    }
  }

  /** `iter().take(k)`: the first `k` elements, or all of them if fewer. */
  function Take<T>(xs: seq<T>, k: nat): (r: seq<T>)
    ensures |r| == Min(k, |xs|)
    ensures r <= xs
  {
    xs[..Min(k, |xs|)]
  }

  /** The `k` best by score, best first. */
  function Top<T>(xs: seq<Scored<T>>, k: nat): seq<Scored<T>>
  {
    Take(SortDesc(xs), k)
  }

  /** What the cut keeps: `k` elements (all of them if fewer), each drawn
      from the input, best first. */
  lemma TopKeepsTheBest<T>(xs: seq<Scored<T>>, k: nat)
    ensures |Top(xs, k)| == Min(k, |xs|)
    ensures SortedDesc(Top(xs, k))
    ensures multiset(Top(xs, k)) <= multiset(xs)
  {
    var s := SortDesc(xs);
    SortIsDescending(xs);
    var m := Min(k, |s|);
    assert s == s[..m] + s[m..];
    assert multiset(s) == multiset(s[..m]) + multiset(s[m..]);
  }

  /** ... and no kept element scores below one that was left out. */
  lemma TopBeatsTheRest<T>(xs: seq<Scored<T>>, k: nat, x: Scored<T>, y: Scored<T>)
    requires x in Top(xs, k)
    requires y in multiset(xs) - multiset(Top(xs, k))
    ensures x.score >= y.score
  {
    var s := SortDesc(xs);
    var m := Min(k, |s|);
    var top, rest := s[..m], s[m..];
    assert y in rest by {
      assert s == top + rest;
      assert multiset(xs) - multiset(top) == multiset(rest);
    }
    var i :| 0 <= i < m && top[i] == x;
    var j :| 0 <= j < |rest| && rest[j] == y;
    assert s[i] == x && s[m + j] == y;
    SortIsDescending(xs);
  }

  /** The same for every pair at once. */
  lemma TopIsTheBest<T>(xs: seq<Scored<T>>, k: nat)
    ensures forall x, y :: x in Top(xs, k) && y in multiset(xs) - multiset(Top(xs, k)) ==> x.score >= y.score
  {
    forall x, y | x in Top(xs, k) && y in multiset(xs) - multiset(Top(xs, k))
      ensures x.score >= y.score
    {
      TopBeatsTheRest(xs, k, x, y);
    }
  }

  /** With fewer than `k` elements the cut keeps all of them, reordered. */
  lemma TopOfShortList<T>(xs: seq<Scored<T>>, k: nat)
    requires |xs| <= k
    ensures multiset(Top(xs, k)) == multiset(xs)
  {
    var s := SortDesc(xs);
    assert s[..|s|] == s;
  }

  /** An input already in descending order with no ties is left as it is. */
  lemma {:induction false} SortKeepsStrictlySorted<T>(xs: seq<Scored<T>>)
    requires forall i, j :: 0 <= i < j < |xs| ==> xs[i].score > xs[j].score
    ensures SortDesc(xs) == xs
    decreases |xs|
  {
    if xs != [] {
      var init := xs[..|xs| - 1];
      SortKeepsStrictlySorted(init);
      InsertLast(xs[|xs| - 1], init);
      assert init + [xs[|xs| - 1]] == xs;
    }
  }

  lemma {:induction false} InsertLast<T>(x: Scored<T>, xs: seq<Scored<T>>)
    requires forall i :: 0 <= i < |xs| ==> xs[i].score >= x.score
    ensures InsertDesc(x, xs) == xs + [x]
    decreases |xs|
  {
    if xs != [] {
      InsertLast(x, xs[1..]);
      assert [xs[0]] + (xs[1..] + [x]) == xs + [x];
    }
  }
}
