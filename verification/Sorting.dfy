/** `sorted` on a list of numbers, and what sorting determines. */
module Sorting {

  predicate Ascending(xs: seq<real>) {
    |xs| <= 1 || (xs[0] <= xs[1] && Ascending(xs[1..]))
  }

  lemma {:induction false} AscendingAt(xs: seq<real>, i: nat, j: nat)
    requires Ascending(xs) && i <= j < |xs|
    ensures xs[i] <= xs[j]
  {
    if i > 0 {
      AscendingAt(xs[1..], i - 1, j - 1);
    } else if j > 0 {
      AscendingAt(xs[1..], 0, j - 1);
    }
  }

  function Insert(x: real, xs: seq<real>): (r: seq<real>)
    ensures multiset(r) == multiset{x} + multiset(xs)
    ensures |r| == |xs| + 1
  {
    if xs == [] || x <= xs[0] then [x] + xs
    else
      assert xs == [xs[0]] + xs[1..];
      [xs[0]] + Insert(x, xs[1..])
  }

  function Sort(xs: seq<real>): (r: seq<real>)
    ensures multiset(r) == multiset(xs) && |r| == |xs|
  {
    if xs == [] then []
    else
      assert xs == [xs[0]] + xs[1..];
      Insert(xs[0], Sort(xs[1..]))
  }

  lemma Prepend(x: real, xs: seq<real>)
    ensures Ascending([x] + xs) <==> (xs == [] || x <= xs[0]) && Ascending(xs)
  {
    assert ([x] + xs)[1..] == xs;
  }

  lemma {:induction false} InsertAscending(x: real, xs: seq<real>)
    requires Ascending(xs)
    ensures Ascending(Insert(x, xs))
    ensures Insert(x, xs)[0] == x || (xs != [] && Insert(x, xs)[0] == xs[0])
  {
    if xs == [] || x <= xs[0] {
      Prepend(x, xs);
    } else {
      InsertAscending(x, xs[1..]);
      Prepend(xs[0], Insert(x, xs[1..]));
    }
  }

  lemma {:induction false} SortAscending(xs: seq<real>)
    ensures Ascending(Sort(xs))
  {
    if xs != [] {
      SortAscending(xs[1..]);
      InsertAscending(xs[0], Sort(xs[1..]));
    }
  }

  lemma HeadIsLeast(xs: seq<real>, x: real)
    requires Ascending(xs) && x in multiset(xs)
    ensures xs != [] && xs[0] <= x
  {
    var i :| 0 <= i < |xs| && xs[i] == x;
    AscendingAt(xs, 0, i);
  }

  lemma TailMultiset(xs: seq<real>)
    requires xs != []
    ensures multiset(xs[1..]) == multiset(xs) - multiset{xs[0]}
  {
    assert xs == [xs[0]] + xs[1..];
  }

  lemma SameHead(xs: seq<real>, ys: seq<real>)
    requires Ascending(xs) && Ascending(ys) && multiset(xs) == multiset(ys) && xs != []
    ensures ys != [] && xs[0] == ys[0]
  {
    assert xs[0] in multiset(xs);
    HeadIsLeast(ys, xs[0]);
    assert ys[0] in multiset(ys);
    HeadIsLeast(xs, ys[0]);
  }

  /** Equal collections of numbers have one ascending order. */
  lemma {:induction false} SortedUnique(xs: seq<real>, ys: seq<real>)
    requires Ascending(xs) && Ascending(ys) && multiset(xs) == multiset(ys)
    ensures xs == ys
  {
    if xs == [] {
      assert |multiset(ys)| == 0;
    } else {
      SameHead(xs, ys);
      TailMultiset(xs);
      TailMultiset(ys);
      SortedUnique(xs[1..], ys[1..]);
      assert xs == [xs[0]] + xs[1..] && ys == [ys[0]] + ys[1..];
    }
  }
}
