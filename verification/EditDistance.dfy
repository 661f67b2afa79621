/** Unit-cost edit distance between activity sequences, the yardstick that the alignment search is measured against. */
module EditDistance {
  import opened Basics

  type Activity = string

  function Mismatch(a: Activity, b: Activity): nat {
    if a == b then 0 else 1
  }

  function Last(x: seq<Activity>): Activity
    requires x != []
  {
    x[|x| - 1]
  }

  function Front(x: seq<Activity>): seq<Activity>
    requires x != []
  {
    x[..|x| - 1]
  }

  /** The classical recurrence: delete from `x`, insert from `y`, or pair the two last activities. */
  function Lev(x: seq<Activity>, y: seq<Activity>): nat
    decreases |x| + |y|
  {
    if x == [] then |y|
    else if y == [] then |x|
    else Min(Min(Lev(Front(x), y), Lev(x, Front(y))) + 1,
             Lev(Front(x), Front(y)) + Mismatch(Last(x), Last(y)))
  }

  lemma LevOfNothing(x: seq<Activity>, q: seq<Activity>)
    ensures x == [] ==> Lev(x, q) == |q|
    ensures q == [] ==> Lev(x, q) == |x|
  {
  }

  lemma {:induction false} LevUnfolds(x: seq<Activity>, q: seq<Activity>)
    requires x != [] && q != []
    ensures Lev(x, q) == Min(Min(Lev(Front(x), q), Lev(x, Front(q))) + 1, Lev(Front(x), Front(q)) + Mismatch(Last(x), Last(q)))
  {
  }

  lemma {:induction false} LevBounds(x: seq<Activity>, y: seq<Activity>)
    ensures |x| <= |y| + Lev(x, y)
    ensures |y| <= |x| + Lev(x, y)
    ensures Lev(x, y) <= Max(|x|, |y|)
    decreases |x| + |y|
  {
    if x != [] && y != [] {
      LevBounds(Front(x), y);
      LevBounds(x, Front(y));
      LevBounds(Front(x), Front(y));
    }
  }

  lemma {:induction false} LevZero(x: seq<Activity>, y: seq<Activity>)
    ensures Lev(x, y) == 0 <==> x == y
    decreases |x| + |y|
  {
    if x != [] && y != [] {
      LevZero(Front(x), Front(y));
      assert x == Front(x) + [Last(x)] && y == Front(y) + [Last(y)];
    }
  }

  lemma LevAppend(x: seq<Activity>, a: Activity, y: seq<Activity>, b: Activity)
    ensures Lev(x + [a], y) <= Lev(x, y) + 1
    ensures Lev(x, y + [b]) <= Lev(x, y) + 1
    ensures Lev(x + [a], y + [b]) <= Lev(x, y) + Mismatch(a, b)
  {
    assert Front(x + [a]) == x && Front(y + [b]) == y;
    assert Last(x + [a]) == a && Last(y + [b]) == b;
  }

  /** Putting one activity in front of one side moves the distance by at most one. */
  lemma {:induction false} LevPrependOne(x: seq<Activity>, s: Activity, y: seq<Activity>)
    ensures Lev(x, [s] + y) <= Lev(x, y) + 1
    ensures Lev(x, y) <= Lev(x, [s] + y) + 1
    decreases |x| + |y|
  {
    if x == [] {
    } else if y == [] {
      assert [s] + y == [s];
      LevBounds(x, [s]);
    } else {
      assert Front([s] + y) == [s] + Front(y) && Last([s] + y) == Last(y);
      LevPrependOne(Front(x), s, y);
      LevPrependOne(x, s, Front(y));
      LevPrependOne(Front(x), s, Front(y));
    }
  }

  /** Pairing two activities in front costs no more than their mismatch. */
  lemma {:induction false} LevPrependBoth(a: Activity, x: seq<Activity>, s: Activity, y: seq<Activity>)
    ensures Lev([a] + x, [s] + y) <= Mismatch(a, s) + Lev(x, y)
    decreases |x| + |y|
  {
    assert x != [] ==> Front([a] + x) == [a] + Front(x) && Last([a] + x) == Last(x);
    assert y != [] ==> Front([s] + y) == [s] + Front(y) && Last([s] + y) == Last(y);
    if x == [] && y == [] {
      assert [a] + x == [a] && [s] + y == [s] && Front([a]) == [] && Front([s]) == [];
    } else if x == [] {
      LevPrependBoth(a, x, s, Front(y));
    } else if y == [] {
      LevPrependBoth(a, Front(x), s, y);
    } else {
      LevPrependBoth(a, Front(x), s, y);
      LevPrependBoth(a, x, s, Front(y));
      LevPrependBoth(a, Front(x), s, Front(y));
    }
  }
}
