/** Sums of a function over a finite set. */
module SetSums {

  ghost function SetSum<T(!new)>(s: set<T>, f: T -> int): int {
    if s == {} then 0 else var x :| x in s; f(x) + SetSum(s - {x}, f)
  }

  lemma {:induction false} SetSumRemove<T(!new)>(s: set<T>, f: T -> int, x: T)
    requires x in s
    ensures SetSum(s, f) == f(x) + SetSum(s - {x}, f)
    decreases |s|
  {
    var y :| y in s && SetSum(s, f) == f(y) + SetSum(s - {y}, f);
    if y != x {
      SetSumRemove(s - {y}, f, x);
      SetSumRemove(s - {x}, f, y);
      assert s - {y} - {x} == s - {x} - {y};
    }
  }

  lemma {:induction false} SetSumAdd<T(!new)>(s: set<T>, f: T -> int, g: T -> int, h: T -> int)
    requires forall x | x in s :: h(x) == f(x) + g(x)
    ensures SetSum(s, h) == SetSum(s, f) + SetSum(s, g)
    decreases |s|
  {
    if s != {} {
      var x :| x in s;
      SetSumRemove(s, f, x);
      SetSumRemove(s, g, x);
      SetSumRemove(s, h, x);
      SetSumAdd(s - {x}, f, g, h);
    }
  }

  lemma {:induction false} SetSumSame<T(!new)>(s: set<T>, f: T -> int, g: T -> int)
    requires forall x | x in s :: f(x) == g(x)
    ensures SetSum(s, f) == SetSum(s, g)
    decreases |s|
  {
    if s != {} {
      var x :| x in s;
      SetSumRemove(s, f, x);
      SetSumRemove(s, g, x);
      SetSumSame(s - {x}, f, g);
    }
  }

  lemma {:induction false} SetSumZero<T(!new)>(s: set<T>, f: T -> int)
    requires forall x | x in s :: f(x) == 0
    ensures SetSum(s, f) == 0
    decreases |s|
  {
    if s != {} {
      var x :| x in s;
      SetSumRemove(s, f, x);
      SetSumZero(s - {x}, f);
    }
  }

  /** A sum with a single term. */
  lemma SetSumSingle<T(!new)>(s: set<T>, f: T -> int, x: T)
    requires x in s && forall y | y in s && y != x :: f(y) == 0
    ensures SetSum(s, f) == f(x)
  {
    SetSumRemove(s, f, x);
    SetSumZero(s - {x}, f);
  }

  lemma {:induction false} SetSumUnion<T(!new)>(s: set<T>, t: set<T>, f: T -> int)
    requires s !! t
    ensures SetSum(s + t, f) == SetSum(s, f) + SetSum(t, f)
    decreases |s|
  {
    if s == {} {
      assert s + t == t;
    } else {
      var x :| x in s;
      SetSumRemove(s, f, x);
      SetSumRemove(s + t, f, x);
      assert s + t - {x} == (s - {x}) + t;
      SetSumUnion(s - {x}, t, f);
    }
  }

  function Times(n: nat, v: int): int {
    n * v
  }

  lemma TimesSteps(n: nat, v: int)
    ensures Times(n + 1, v) == Times(n, v) + v && Times(0, v) == 0
  {
  }

  lemma {:induction false} TimesMonotone(m: nat, n: nat, v: nat)
    requires m <= n
    ensures Times(m, v) <= Times(n, v)
    decreases n
  {
    if m < n {
      TimesMonotone(m, n - 1, v);
      TimesSteps(n - 1, v);
    }
  }

  /** Terms of at most `v`, or at least `v`, bound the sum by `v` times their number. */
  lemma {:induction false} SetSumAtMost<T(!new)>(s: set<T>, f: T -> int, v: int)
    requires forall x | x in s :: f(x) <= v
    ensures SetSum(s, f) <= Times(|s|, v)
    decreases |s|
  {
    hide Times;
    TimesSteps(0, v);
    if s != {} {
      var x :| x in s;
      SetSumRemove(s, f, x);
      SetSumAtMost(s - {x}, f, v);
      TimesSteps(|s - {x}|, v);
    }
  }

  lemma {:induction false} SetSumAtLeast<T(!new)>(s: set<T>, f: T -> int, v: int)
    requires forall x | x in s :: v <= f(x)
    ensures Times(|s|, v) <= SetSum(s, f)
    decreases |s|
  {
    hide Times;
    TimesSteps(0, v);
    if s != {} {
      var x :| x in s;
      SetSumRemove(s, f, x);
      SetSumAtLeast(s - {x}, f, v);
      TimesSteps(|s - {x}|, v);
    }
  }
}
