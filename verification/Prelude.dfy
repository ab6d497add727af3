/** Small helpers shared by every part of the model. */
module Prelude {

  datatype Option<+T> = None | Some(value: T)

  datatype Result<+T, +E> = Ok(value: T) | Err(error: E)

  function Min(a: int, b: int): int { if a <= b then a else b }

  function Max(a: int, b: int): int { if a >= b then a else b }

  /** The members of `xs` that satisfy `p`, in order. */
  function Filter<T>(p: T -> bool, xs: seq<T>): seq<T> {
    if xs == [] then []
    else if p(xs[0]) then [xs[0]] + Filter(p, xs[1..])
    else Filter(p, xs[1..])
  }

  lemma {:induction false} FilterMembers<T>(p: T -> bool, xs: seq<T>, x: T)
    ensures x in Filter(p, xs) <==> x in xs && p(x)
  {
    if xs != [] {
      FilterMembers(p, xs[1..], x);
      assert x in xs <==> x == xs[0] || x in xs[1..];
    }
  }

  lemma {:induction false} FilterAppend<T>(p: T -> bool, xs: seq<T>, ys: seq<T>)
    ensures Filter(p, xs + ys) == Filter(p, xs) + Filter(p, ys)
  {
    if xs == [] {
      assert xs + ys == ys;
      assert Filter(p, xs) + Filter(p, ys) == Filter(p, ys);
    } else {
      FilterAppend(p, xs[1..], ys);
      assert (xs + ys)[0] == xs[0] && (xs + ys)[1..] == xs[1..] + ys;
      if p(xs[0]) {
        assert [xs[0]] + (Filter(p, xs[1..]) + Filter(p, ys)) == Filter(p, xs) + Filter(p, ys);
      }
    }
  }

  lemma {:induction false} FilterCount<T>(p: T -> bool, xs: seq<T>, x: T)
    ensures multiset(Filter(p, xs))[x] == if p(x) then multiset(xs)[x] else 0
  {
    if xs != [] {
      FilterCount(p, xs[1..], x);
      assert xs == [xs[0]] + xs[1..];
    }
  }

  function Take<T>(xs: seq<T>, n: nat): seq<T> {
    if |xs| <= n then xs else xs[..n]
  }

  ghost predicate Distinct<T>(xs: seq<T>) {
    forall i, j :: 0 <= i < j < |xs| ==> xs[i] != xs[j]
  }

  /** A sequence has distinct elements exactly when it is as long as its element set. */
  lemma {:induction false} DistinctLength<T>(xs: seq<T>)
    requires Distinct(xs)
    ensures |set x | x in xs| == |xs|
  {
    var all := set x | x in xs;
    if xs == [] {
      assert all == {};
    } else {
      DistinctLength(xs[1..]);
      assert all == {xs[0]} + set x | x in xs[1..];
    }
  }

  ghost function Any<T>(xs: set<T>): (r: T)
    requires xs != {}
    ensures r in xs
  {
    var x :| x in xs; x
  }

  lemma {:induction false} GreatestExists(xs: set<int>)
    requires |xs| > 0
    ensures exists x :: x in xs && forall y :: y in xs ==> y <= x
    decreases |xs|
  {
    var x := Any(xs);
    var rest := xs - {x};
    if |rest| == 0 {
      assert xs == {x};
    } else {
      GreatestExists(rest);
      var z :| z in rest && forall y :: y in rest ==> y <= z;
      var top := if x <= z then z else x;
      forall y | y in xs ensures y <= top { assert y == x || y in rest; }
    }
  }

  /** The greatest member, if there is one. */
  ghost function Greatest(xs: set<int>): (r: Option<int>)
    ensures xs == {} <==> r.None?
    ensures r.Some? ==> r.value in xs && forall y :: y in xs ==> y <= r.value
  {
    if xs == {} then None else
      GreatestExists(xs);
      var x :| x in xs && forall y :: y in xs ==> y <= x;
      Some(x)
  }
}
