/** What the summary of a window counts, and the balances between the counts. */
module EventCounts {
  import opened EventLog
  import opened SetSums

  function Path(c: Case): (path: seq<string>)
    ensures |path| == |c.events|
  {
    seq(|c.events|, i requires 0 <= i < |c.events| => c.events[i].activity)
  }

  function Times(c: Case): (times: seq<int>)
    ensures |times| == |c.events|
  {
    seq(|c.events|, i requires 0 <= i < |c.events| => c.events[i].timestamp)
  }

  function If(b: bool): nat {
    if b then 1 else 0
  }

  // ---------- counts over one case ----------

  function Occurrences(path: seq<string>, a: string): nat {
    if path == [] then 0 else Occurrences(path[..|path| - 1], a) + If(path[|path| - 1] == a)
  }

  predicate StepIs(path: seq<string>, i: nat, a: string, b: string)
    requires i + 1 < |path|
  {
    path[i] == a && path[i + 1] == b
  }

  /** How often `b` directly follows `a` among the first `n` steps. */
  function Steps(path: seq<string>, n: nat, a: string, b: string): nat
    requires n == 0 || n < |path|
  {
    if n == 0 then 0 else Steps(path, n - 1, a, b) + If(StepIs(path, n - 1, a, b))
  }

  /** The time from `a` to a directly following `b`, over the first `n` steps. */
  function StepTime(path: seq<string>, times: seq<int>, n: nat, a: string, b: string): int
    requires |times| == |path| && (n == 0 || n < |path|)
  {
    if n == 0 then 0
    else StepTime(path, times, n - 1, a, b) + (if StepIs(path, n - 1, a, b) then times[n] - times[n - 1] else 0)
  }

  function StepCount(path: seq<string>): nat {
    if path == [] then 0 else |path| - 1
  }

  // ---------- counts over the cases of a window ----------

  function Last(cases: seq<Case>): Case
    requires cases != []
  {
    cases[|cases| - 1]
  }

  function EventCount(cases: seq<Case>): nat {
    if cases == [] then 0 else EventCount(cases[..|cases| - 1]) + |Last(cases).events|
  }

  function VariantCount(cases: seq<Case>, path: seq<string>): nat {
    if cases == [] then 0 else VariantCount(cases[..|cases| - 1], path) + If(Path(Last(cases)) == path)
  }

  function EdgeCount(cases: seq<Case>, a: string, b: string): nat {
    if cases == [] then 0
    else EdgeCount(cases[..|cases| - 1], a, b) + var p := Path(Last(cases)); Steps(p, StepCount(p), a, b)
  }

  function EdgeTime(cases: seq<Case>, a: string, b: string): int {
    if cases == [] then 0
    else
      EdgeTime(cases[..|cases| - 1], a, b)
      + var p := Path(Last(cases)); StepTime(p, Times(Last(cases)), StepCount(p), a, b)
  }

  function CasesWith(cases: seq<Case>, a: string): nat {
    if cases == [] then 0 else CasesWith(cases[..|cases| - 1], a) + If(a in Path(Last(cases)))
  }

  function TotalOccurrences(cases: seq<Case>, a: string): nat {
    if cases == [] then 0 else TotalOccurrences(cases[..|cases| - 1], a) + Occurrences(Path(Last(cases)), a)
  }

  function Starts(cases: seq<Case>, a: string): nat {
    if cases == [] then 0
    else Starts(cases[..|cases| - 1], a) + var p := Path(Last(cases)); If(p != [] && p[0] == a)
  }

  function Ends(cases: seq<Case>, a: string): nat {
    if cases == [] then 0
    else Ends(cases[..|cases| - 1], a) + var p := Path(Last(cases)); If(p != [] && p[|p| - 1] == a)
  }

  /** The time each case takes from its first to its last event. */
  function CaseTime(cases: seq<Case>): int {
    if cases == [] then 0
    else
      CaseTime(cases[..|cases| - 1])
      + var t := Times(Last(cases)); if t == [] then 0 else t[|t| - 1] - t[0]
  }

  // ---------- balance within one case ----------

  /** Arrivals at `a` are its occurrences, but for one at the start. */
  lemma {:induction false} ArrivalsOfPath(s: set<string>, path: seq<string>, n: nat, a: string)
    requires n < |path| && forall x | x in path :: x in s
    ensures SetSum(s, x => Steps(path, n, x, a)) + If(path[0] == a) == Occurrences(path[..n + 1], a)
  {
    if n == 0 {
      SetSumZero(s, x => Steps(path, n, x, a));
      assert path[..1][..0] == [];
    } else {
      ArrivalsOfPath(s, path, n - 1, a);
      var step := x => If(StepIs(path, n - 1, x, a)) as int;
      assert path[n - 1] in path;
      SetSumSingle(s, step, path[n - 1]);
      SetSumAdd(s, x => Steps(path, n - 1, x, a), step, x => Steps(path, n, x, a));
      assert path[..n + 1][..n] == path[..n];
    }
  }

  /** Departures from `a` are its occurrences, but for one at the end. */
  lemma {:induction false} DeparturesOfPath(s: set<string>, path: seq<string>, n: nat, a: string)
    requires n < |path| && forall x | x in path :: x in s
    ensures SetSum(s, x => Steps(path, n, a, x)) + If(path[n] == a) == Occurrences(path[..n + 1], a)
  {
    if n == 0 {
      SetSumZero(s, x => Steps(path, n, a, x));
      assert path[..1][..0] == [];
    } else {
      DeparturesOfPath(s, path, n - 1, a);
      var step := x => If(StepIs(path, n - 1, a, x)) as int;
      assert path[n] in path;
      SetSumSingle(s, step, path[n]);
      SetSumAdd(s, x => Steps(path, n - 1, a, x), step, x => Steps(path, n, a, x));
      assert path[..n + 1][..n] == path[..n];
    }
  }

  // ---------- balance over a window ----------

  /** `s` holds every activity of the window. */
  ghost predicate Covers(s: set<string>, cases: seq<Case>) {
    forall c, a | c in cases && a in Path(c) :: a in s
  }

  /** Occurrences are starts and incoming edges; they are also ends and outgoing edges. */
  lemma {:induction false} FlowBalance(s: set<string>, cases: seq<Case>, a: string)
    requires Covers(s, cases)
    ensures TotalOccurrences(cases, a) == Starts(cases, a) + SetSum(s, x => EdgeCount(cases, x, a))
    ensures TotalOccurrences(cases, a) == Ends(cases, a) + SetSum(s, x => EdgeCount(cases, a, x))
    decreases |cases|
  {
    if cases == [] {
      SetSumZero(s, x => EdgeCount(cases, x, a));
      SetSumZero(s, x => EdgeCount(cases, a, x));
    } else {
      var init, c := cases[..|cases| - 1], Last(cases);
      assert c in cases && forall d | d in init :: d in cases;
      FlowBalance(s, init, a);
      var p := Path(c);
      if p == [] {
        SetSumZero(s, x => Steps(p, 0, x, a));
        SetSumZero(s, x => Steps(p, 0, a, x));
      } else {
        ArrivalsOfPath(s, p, |p| - 1, a);
        DeparturesOfPath(s, p, |p| - 1, a);
        assert p[..|p|] == p;
      }
      SetSumAdd(s, x => EdgeCount(init, x, a), x => Steps(p, StepCount(p), x, a), x => EdgeCount(cases, x, a));
      SetSumAdd(s, x => EdgeCount(init, a, x), x => Steps(p, StepCount(p), a, x), x => EdgeCount(cases, a, x));
    }
  }

  lemma {:induction false} OccurrencesSum(s: set<string>, path: seq<string>)
    requires forall x | x in path :: x in s
    ensures SetSum(s, x => Occurrences(path, x)) == |path|
  {
    if path == [] {
      SetSumZero(s, x => Occurrences(path, x));
    } else {
      var init, last := path[..|path| - 1], path[|path| - 1];
      OccurrencesSum(s, init);
      assert last in path;
      SetSumSingle(s, x => If(last == x), last);
      SetSumAdd(s, x => Occurrences(init, x), x => If(last == x), x => Occurrences(path, x));
    }
  }

  lemma {:induction false} StartsAndOccurrencesSum(s: set<string>, cases: seq<Case>)
    requires Covers(s, cases) && forall c | c in cases :: c.events != []
    ensures SetSum(s, x => TotalOccurrences(cases, x)) == EventCount(cases)
    ensures SetSum(s, x => Starts(cases, x)) == |cases|
    decreases |cases|
  {
    if cases == [] {
      SetSumZero(s, x => TotalOccurrences(cases, x));
      SetSumZero(s, x => Starts(cases, x));
    } else {
      var init, p := cases[..|cases| - 1], Path(Last(cases));
      assert Last(cases) in cases && forall d | d in init :: d in cases;
      StartsAndOccurrencesSum(s, init);
      OccurrencesSum(s, p);
      SetSumAdd(s, x => TotalOccurrences(init, x), x => Occurrences(p, x), x => TotalOccurrences(cases, x));
      assert p[0] in p;
      SetSumSingle(s, x => If(p[0] == x), p[0]);
      SetSumAdd(s, x => Starts(init, x), x => If(p[0] == x), x => Starts(cases, x));
    }
  }

  /** There is one edge for every event that is not the first of its case. */
  lemma EdgeTotal(s: set<string>, cases: seq<Case>)
    requires Covers(s, cases) && forall c | c in cases :: c.events != []
    ensures SetSum(s, b => SetSum(s, a => EdgeCount(cases, a, b))) + |cases| == EventCount(cases)
  {
    StartsAndOccurrencesSum(s, cases);
    forall b | b in s
      ensures TotalOccurrences(cases, b) == Starts(cases, b) + SetSum(s, a => EdgeCount(cases, a, b))
    {
      FlowBalance(s, cases, b);
    }
    SetSumAdd(s, b => Starts(cases, b), b => SetSum(s, a => EdgeCount(cases, a, b)), b => TotalOccurrences(cases, b));
  }

  lemma {:induction false} StepTimeSum(s: set<string>, path: seq<string>, times: seq<int>, n: nat)
    requires n < |path| == |times| && forall x | x in path :: x in s
    ensures SetSum(s, b => SetSum(s, a => StepTime(path, times, n, a, b))) == times[n] - times[0]
  {
    if n == 0 {
      forall b | b in s ensures SetSum(s, a => StepTime(path, times, 0, a, b)) == 0 {
        SetSumZero(s, a => StepTime(path, times, 0, a, b));
      }
      SetSumZero(s, b => SetSum(s, a => StepTime(path, times, n, a, b)));
    } else {
      StepTimeSum(s, path, times, n - 1);
      var d := times[n] - times[n - 1];
      assert path[n - 1] in path && path[n] in path;
      var here := b => SetSum(s, a => if StepIs(path, n - 1, a, b) then d else 0);
      forall b | b in s
        ensures SetSum(s, a => StepTime(path, times, n, a, b)) == SetSum(s, a => StepTime(path, times, n - 1, a, b)) + here(b)
        ensures here(b) == if path[n] == b then d else 0
      {
        var one := a => if StepIs(path, n - 1, a, b) then d else 0;
        SetSumAdd(s, a => StepTime(path, times, n - 1, a, b), one, a => StepTime(path, times, n, a, b));
        SetSumSingle(s, one, path[n - 1]);
      }
      SetSumSingle(s, here, path[n]);
      SetSumAdd(s, b => SetSum(s, a => StepTime(path, times, n - 1, a, b)), here,
                b => SetSum(s, a => StepTime(path, times, n, a, b)));
    }
  }

  /** The time on all edges is the time the cases take. */
  lemma {:induction false} EdgeTimeTotal(s: set<string>, cases: seq<Case>)
    requires Covers(s, cases)
    ensures SetSum(s, b => SetSum(s, a => EdgeTime(cases, a, b))) == CaseTime(cases)
    decreases |cases|
  {
    if cases == [] {
      forall b | b in s ensures SetSum(s, a => EdgeTime(cases, a, b)) == 0 {
        SetSumZero(s, a => EdgeTime(cases, a, b));
      }
      SetSumZero(s, b => SetSum(s, a => EdgeTime(cases, a, b)));
    } else {
      var init, c := cases[..|cases| - 1], Last(cases);
      assert c in cases && forall d | d in init :: d in cases;
      EdgeTimeTotal(s, init);
      var p, t := Path(c), Times(c);
      var here := b => SetSum(s, a => StepTime(p, t, StepCount(p), a, b));
      forall b | b in s
        ensures SetSum(s, a => EdgeTime(cases, a, b)) == SetSum(s, a => EdgeTime(init, a, b)) + here(b)
      {
        SetSumAdd(s, a => EdgeTime(init, a, b), a => StepTime(p, t, StepCount(p), a, b), a => EdgeTime(cases, a, b));
      }
      SetSumAdd(s, b => SetSum(s, a => EdgeTime(init, a, b)), here, b => SetSum(s, a => EdgeTime(cases, a, b)));
      CaseTimeSum(s, p, t);
    }
  }

  lemma CaseTimeSum(s: set<string>, path: seq<string>, times: seq<int>)
    requires |path| == |times| && forall x | x in path :: x in s
    ensures SetSum(s, b => SetSum(s, a => StepTime(path, times, StepCount(path), a, b)))
            == if times == [] then 0 else times[|times| - 1] - times[0]
  {
    if path == [] {
      forall b | b in s ensures SetSum(s, a => StepTime(path, times, 0, a, b)) == 0 {
        SetSumZero(s, a => StepTime(path, times, 0, a, b));
      }
      SetSumZero(s, b => SetSum(s, a => StepTime(path, times, StepCount(path), a, b)));
    } else {
      StepTimeSum(s, path, times, |path| - 1);
    }
  }
}
