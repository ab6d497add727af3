/** Python's `sorted(..., key=...)` where the key ends in a unique tiebreak.

    The order is a relation that is linear on the elements at hand, so the sorted
    sequence is the only ordered rearrangement of its input. */
module Sorting {
  import opened Prelude

  ghost predicate LinearOn<T(!new)>(le: (T, T) -> bool, xs: seq<T>) {
    && (forall a, b :: a in xs && b in xs ==> le(a, b) || le(b, a))
    && (forall a, b :: a in xs && b in xs && le(a, b) && le(b, a) ==> a == b)
    && (forall a, b, c :: a in xs && b in xs && c in xs && le(a, b) && le(b, c) ==> le(a, c))
  }

  ghost predicate Ordered<T(!new)>(le: (T, T) -> bool, xs: seq<T>) {
    forall i, j :: 0 <= i < j < |xs| ==> le(xs[i], xs[j])
  }

  function Insert<T(!new)>(le: (T, T) -> bool, x: T, xs: seq<T>): (r: seq<T>)
    ensures multiset(r) == multiset(xs) + multiset{x}
  {
    if xs == [] then [x]
    else if le(x, xs[0]) then [x] + xs
    else
      assert xs == [xs[0]] + xs[1..];
      [xs[0]] + Insert(le, x, xs[1..])
  }

  function Sort<T(!new)>(le: (T, T) -> bool, xs: seq<T>): (r: seq<T>)
    ensures multiset(r) == multiset(xs)
    ensures |r| == |xs|
  {
    if xs == [] then [] else
      assert xs == [xs[0]] + xs[1..];
      var r := Insert(le, xs[0], Sort(le, xs[1..]));
      assert |multiset(r)| == |multiset(xs)|;
      r
  }

  lemma SameElements<T(!new)>(xs: seq<T>, ys: seq<T>)
    requires multiset(xs) == multiset(ys)
    ensures forall x :: x in xs <==> x in ys
  {
    forall x ensures x in xs <==> x in ys {
      assert x in xs <==> x in multiset(xs);
      assert x in ys <==> x in multiset(ys);
    }
  }

  lemma {:induction false} InsertOrdered<T(!new)>(le: (T, T) -> bool, x: T, xs: seq<T>)
    requires LinearOn(le, [x] + xs) && Ordered(le, xs)
    ensures Ordered(le, Insert(le, x, xs))
  {
    if xs != [] && !le(x, xs[0]) {
      var rest := Insert(le, x, xs[1..]);
      assert forall y :: y in [x] + xs[1..] ==> y in [x] + xs;
      InsertOrdered(le, x, xs[1..]);
      SameElements(rest, xs[1..] + [x]);
      forall y | y in rest ensures le(xs[0], y) {
        assert y == x || y in xs[1..];
        assert x in [x] + xs && xs[0] in [x] + xs;
      }
    } else if xs != [] {
      forall y | y in xs ensures le(x, y) {
        assert x in [x] + xs && y in [x] + xs && xs[0] in [x] + xs;
        assert y == xs[0] || le(xs[0], y);
      }
    }
  }

  /** Sorting orders the elements it was given. */
  lemma {:induction false} SortOrders<T(!new)>(le: (T, T) -> bool, xs: seq<T>)
    requires LinearOn(le, xs)
    ensures Ordered(le, Sort(le, xs))
    ensures forall x :: x in Sort(le, xs) <==> x in xs
  {
    SameElements(Sort(le, xs), xs);
    if xs != [] {
      SortOrders(le, xs[1..]);
      var rest := Sort(le, xs[1..]);
      assert forall x :: x in [xs[0]] + rest ==> x in xs;
      InsertOrdered(le, xs[0], rest);
    }
  }

  /** There is only one ordered rearrangement. */
  lemma {:induction false} OrderedUnique<T(!new)>(le: (T, T) -> bool, xs: seq<T>, ys: seq<T>)
    requires LinearOn(le, xs) && multiset(xs) == multiset(ys)
    requires Ordered(le, xs) && Ordered(le, ys)
    ensures xs == ys
  {
    assert |multiset(xs)| == |xs| && |multiset(ys)| == |ys|;
    if xs != [] {
      SameElements(xs, ys);
      SameLeast(le, xs, ys);
      SameTails(xs, ys);
      OrderedUnique(le, xs[1..], ys[1..]);
      assert xs == [xs[0]] + xs[1..] && ys == [ys[0]] + ys[1..];
    }
  }

  lemma SameTails<T(!new)>(xs: seq<T>, ys: seq<T>)
    requires xs != [] && ys != [] && xs[0] == ys[0] && multiset(xs) == multiset(ys)
    ensures multiset(xs[1..]) == multiset(ys[1..])
  {
    assert xs == [xs[0]] + xs[1..] && ys == [ys[0]] + ys[1..];
    assert multiset(xs[1..]) == multiset(xs) - multiset{xs[0]};
    assert multiset(ys[1..]) == multiset(ys) - multiset{ys[0]};
  }

  lemma SameLeast<T(!new)>(le: (T, T) -> bool, xs: seq<T>, ys: seq<T>)
    requires LinearOn(le, xs) && Ordered(le, xs) && Ordered(le, ys) && xs != [] && ys != []
    requires forall x :: x in xs <==> x in ys
    ensures xs[0] == ys[0]
  {
    assert xs[0] in ys && ys[0] in xs;
  }

  lemma {:induction false} FilterOrdered<T(!new)>(le: (T, T) -> bool, p: T -> bool, xs: seq<T>)
    requires Ordered(le, xs)
    ensures Ordered(le, Filter(p, xs))
  {
    if xs != [] {
      FilterOrdered(le, p, xs[1..]);
      forall y | y in Filter(p, xs[1..]) ensures le(xs[0], y) {
        FilterMembers(p, xs[1..], y);
        assert y in xs[1..];
      }
    }
  }

  lemma {:induction false} DistinctMultiset<T(!new)>(xs: seq<T>)
    ensures Distinct(xs) <==> forall x :: multiset(xs)[x] <= 1
  {
    if xs != [] {
      DistinctMultiset(xs[1..]);
      assert xs == [xs[0]] + xs[1..];
      if xs[0] in xs[1..] {
        assert multiset(xs)[xs[0]] >= 2;
        var j :| 0 <= j < |xs[1..]| && xs[1..][j] == xs[0];
        assert xs[j + 1] == xs[0];
      } else {
        assert multiset(xs[1..])[xs[0]] == 0;
        if Distinct(xs[1..]) {
          assert forall x :: multiset(xs)[x] == multiset(xs[1..])[x] + if x == xs[0] then 1 else 0;
          forall j | 1 <= j < |xs| ensures xs[j] != xs[0] { assert xs[j] in xs[1..]; }
          forall i, j | 0 <= i < j < |xs| ensures xs[i] != xs[j] {
            if i > 0 { assert xs[1..][i - 1] != xs[1..][j - 1]; }
          }
        } else {
          var x :| multiset(xs[1..])[x] > 1;
          assert multiset(xs)[x] > 1;
          var i, j :| 0 <= i < j < |xs[1..]| && xs[1..][i] == xs[1..][j];
          assert xs[i + 1] == xs[j + 1];
        }
      }
    }
  }

  lemma SortDistinct<T(!new)>(le: (T, T) -> bool, xs: seq<T>)
    requires Distinct(xs)
    ensures Distinct(Sort(le, xs))
  {
    DistinctMultiset(xs);
    DistinctMultiset(Sort(le, xs));
  }
}
