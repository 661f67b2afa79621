/** When the alignment cost is the plain edit distance to the model, and when it is not. */
module AlignmentExactness {
  import opened EditDistance
  import opened AlignmentGraph
  import opened AlignmentTheorems

  // ---------- first activities ----------

  lemma {:induction false} LevSameFirst(s: Activity, x: seq<Activity>, y: seq<Activity>)
    ensures Lev([s] + x, [s] + y) == Lev(x, y)
    decreases |x| + |y|
  {
    hide Lev;
    LevPrependBoth(s, x, s, y);
    LevOfNothing(x, y);
    if x == [] || y == [] {
      LevBounds([s] + x, [s] + y);
    } else {
      assert Front([s] + x) == [s] + Front(x) && Last([s] + x) == Last(x);
      assert Front([s] + y) == [s] + Front(y) && Last([s] + y) == Last(y);
      LevUnfolds(x, y);
      LevUnfolds([s] + x, [s] + y);
      LevSameFirst(s, Front(x), y);
      LevSameFirst(s, x, Front(y));
      LevSameFirst(s, Front(x), Front(y));
    }
  }

  /** `y` can be cut behind an `s`, or not at all, so that the rest of it is no farther from `x` than `y` from `s` and `x`. */
  ghost predicate CutsAt(s: Activity, x: seq<Activity>, y: seq<Activity>, k: nat, cost: nat) {
    k <= |y| && (k == 0 || y[k - 1] == s) && Lev(x, y[k..]) <= cost
  }

  lemma CutExtends(s: Activity, x: seq<Activity>, y: seq<Activity>, k: nat, cost: nat, a: Activity, b: Activity)
    requires CutsAt(s, x, y, k, cost)
    ensures CutsAt(s, x + [a], y, k, cost + 1)
    ensures CutsAt(s, x, y + [b], k, cost + 1)
    ensures CutsAt(s, x + [a], y + [b], k, cost + Mismatch(a, b))
  {
    hide Lev;
    assert (y + [b])[k..] == y[k..] + [b];
    LevAppend(x, a, y[k..], b);
  }

  /** What `s` in front of `x` can be paired with in `y`, or nothing, is where to cut. */
  lemma {:induction false} LevDropFirst(s: Activity, x: seq<Activity>, y: seq<Activity>) returns (k: nat)
    ensures CutsAt(s, x, y, k, Lev([s] + x, y))
    decreases |x| + |y|
  {
    hide CutsAt, Lev;
    if y == [] {
      k := 0;
      NothingToCut(s, x);
    } else if x == [] {
      k := LevDropAlone(s, y);
    } else {
      assert Front([s] + x) == [s] + Front(x) && Last([s] + x) == Last(x);
      assert x == Front(x) + [Last(x)] && y == Front(y) + [Last(y)];
      LevUnfolds([s] + x, y);
      if Lev([s] + x, y) == Lev([s] + Front(x), y) + 1 {
        k := LevDropFirst(s, Front(x), y);
        CutExtends(s, Front(x), y, k, Lev([s] + Front(x), y), Last(x), Last(y));
      } else if Lev([s] + x, y) == Lev([s] + x, Front(y)) + 1 {
        k := LevDropFirst(s, x, Front(y));
        CutExtends(s, x, Front(y), k, Lev([s] + x, Front(y)), Last(x), Last(y));
      } else {
        k := LevDropFirst(s, Front(x), Front(y));
        CutExtends(s, Front(x), Front(y), k, Lev([s] + Front(x), Front(y)), Last(x), Last(y));
      }
    }
  }

  lemma NothingToCut(s: Activity, x: seq<Activity>)
    ensures CutsAt(s, x, [], 0, Lev([s] + x, []))
  {
    LevBounds([s] + x, []);
  }

  lemma LevDropAlone(s: Activity, y: seq<Activity>) returns (k: nat)
    ensures CutsAt(s, [], y, k, Lev([s] + [], y))
  {
    assert [s] + [] == [s];
    if s in y {
      var i :| 0 <= i < |y| && y[i] == s;
      k := i + 1;
      LevBounds([s], y);
    } else {
      k := 0;
      LevDisjoint([s], y);
    }
  }

  /** Every activity that the other side does not have costs a move. */
  lemma {:induction false} LevDisjoint(x: seq<Activity>, y: seq<Activity>)
    requires forall a | a in y :: a !in x
    ensures |y| <= Lev(x, y)
    decreases |x| + |y|
  {
    if x != [] && y != [] {
      assert Last(x) in x && Last(y) in y && Last(x) != Last(y);
      LevDisjoint(Front(x), y);
      LevDisjoint(x, Front(y));
      LevDisjoint(Front(x), Front(y));
    }
  }

  /** So does a first activity that the other side does not begin with, in front of such activities. */
  lemma {:induction false} LevForeignBehind(x: seq<Activity>, b: Activity, y: seq<Activity>)
    requires (x == [] || x[0] != b) && forall a | a in y :: a !in x
    ensures |y| + 1 <= Lev(x, [b] + y)
    decreases |x| + |y|
  {
    if y == [] {
      assert [b] + y == [b];
      LevZero(x, [b]);
    } else if x != [] {
      assert Front([b] + y) == [b] + Front(y) && Last([b] + y) == Last(y);
      assert Last(x) in x && Last(y) in y && Last(x) != Last(y);
      LevForeignBehind(Front(x), b, y);
      LevForeignBehind(x, b, Front(y));
      LevForeignBehind(Front(x), b, Front(y));
    }
  }

  // ---------- traces that begin with the only start activity ----------

  lemma SuffixAccepts(m: DfgModel, run: seq<Activity>, k: nat)
    requires Accepts(m, run) && k < |run| && run[k] in m.startActivities
    ensures Accepts(m, run[k..])
  {
    forall i | 0 <= i < |run[k..]| - 1 ensures HasEdge(m, run[k..][i], run[k..][i + 1]) {
      assert HasEdge(m, run[k + i], run[k + i + 1]);
    }
  }

  /** Some run is as near to the trace as `run` is charged for. */
  lemma NearerRun(m: DfgModel, t: seq<Activity>, run: seq<Activity>) returns (nearer: seq<Activity>)
    requires Accepts(m, run) && t != [] && m.startActivities.Keys == {t[0]}
    ensures Accepts(m, nearer) && Lev(t, nearer) <= RunCost(t, run) <= Lev(t, run)
  {
    var s, u, q := t[0], t[1..], run[1..];
    assert t == [s] + u && run == [s] + q;
    LevSameFirst(s, u, q);
    var k := LevDropFirst(s, u, q);
    if k == 0 {
      assert q[0..] == q;
      nearer := run;
    } else {
      nearer := run[k..];
      SuffixAccepts(m, run, k);
      assert nearer == [s] + q[k..];
      LevSameFirst(s, u, q[k..]);
      if RunCost(t, run) == Lev(u, q) {
        nearer := if Lev(t, nearer) <= Lev(u, q) then nearer else run;
      }
    }
  }

  lemma SharedStartIsExact(m: DfgModel, t: seq<Activity>, cost: nat, distance: nat)
    requires t != [] && m.startActivities.Keys == {t[0]}
    requires IsLeastRunCost(m, t, cost) && IsDistanceToModel(m, t, distance)
    ensures cost == distance
  {
    hide Lev, RunCost, Follows;
    var a :| Accepts(m, a) && RunCost(t, a) == cost;
    var b :| Accepts(m, b) && Lev(t, b) == distance;
    var nearer := NearerRun(m, t, a);
    var other := NearerRun(m, t, b);
  }

  // ---------- a model with a single run ----------

  /** The only run is `b` followed by `y`, whatever else may start. */
  function Line(starts: set<Activity>, b: Activity, y: seq<Activity>): DfgModel {
    var run := [b] + y;
    DfgModel(run, map s | s in starts :: 1, map[Last(run) := 1],
             seq(|y|, i requires 0 <= i < |y| => DfgEdge(run[i], run[i + 1], "", 1)))
  }

  ghost predicate Fresh(y: seq<Activity>, known: set<Activity>) {
    && (forall i, j | 0 <= i < j < |y| :: y[i] != y[j])
    && (forall i | 0 <= i < |y| :: y[i] !in known)
  }

  lemma FreshActivities(known: set<Activity>, n: nat) returns (y: seq<Activity>)
    ensures |y| == n && Fresh(y, known)
  {
    var length := LongerThanAll(known);
    y := seq(n, i requires 0 <= i < n => seq(length + i, _ => 'x'));
    forall i, j | 0 <= i < j < n ensures y[i] != y[j] {
      assert |y[i]| < |y[j]|;
    }
  }

  lemma LineEdge(starts: set<Activity>, b: Activity, y: seq<Activity>, a: Activity, c: Activity)
    ensures HasEdge(Line(starts, b, y), a, c)
            <==> exists i :: 0 <= i < |y| && ([b] + y)[i] == a && ([b] + y)[i + 1] == c
  {
    var m, run := Line(starts, b, y), [b] + y;
    if i :| 0 <= i < |y| && run[i] == a && run[i + 1] == c {
      assert m.edges[i] in m.edges && m.edges[i].source == a && m.edges[i].target == c;
    }
  }

  /** The line has no forks: a run that starts at `b` keeps to it. */
  lemma {:induction false} KeepsToLine(starts: set<Activity>, b: Activity, y: seq<Activity>, run: seq<Activity>, k: nat)
    requires Fresh(y, starts) && b in starts && Accepts(Line(starts, b, y), run) && run[0] == b && k < |run|
    ensures k <= |y| && run[k] == ([b] + y)[k]
  {
    if k > 0 {
      KeepsToLine(starts, b, y, run, k - 1);
      assert HasEdge(Line(starts, b, y), run[k - 1], run[k - 1 + 1]);
      LineEdge(starts, b, y, run[k - 1], run[k]);
      var i :| 0 <= i < |y| && ([b] + y)[i] == run[k - 1] && ([b] + y)[i + 1] == run[k];
      SamePlace(starts, b, y, i, k - 1);
    }
  }

  lemma SamePlace(starts: set<Activity>, b: Activity, y: seq<Activity>, i: nat, j: nat)
    requires Fresh(y, starts) && b in starts && i <= |y| && j <= |y| && ([b] + y)[i] == ([b] + y)[j]
    ensures i == j
  {
  }

  /** A run starts at `b`, since no edge leaves another start activity and no other is an end. */
  lemma RunBeginsLine(starts: set<Activity>, b: Activity, y: seq<Activity>, run: seq<Activity>)
    requires Fresh(y, starts) && b in starts && Accepts(Line(starts, b, y), run)
    ensures run[0] == b
  {
    if |run| > 1 {
      assert HasEdge(Line(starts, b, y), run[0], run[0 + 1]);
      LineEdge(starts, b, y, run[0], run[1]);
    }
  }

  lemma LineAccepts(starts: set<Activity>, b: Activity, y: seq<Activity>, run: seq<Activity>)
    requires Fresh(y, starts) && b in starts
    ensures Accepts(Line(starts, b, y), run) <==> run == [b] + y
  {
    var m := Line(starts, b, y);
    if Accepts(m, run) {
      RunBeginsLine(starts, b, y, run);
      forall k | 0 <= k < |run| ensures k <= |y| && run[k] == ([b] + y)[k] {
        KeepsToLine(starts, b, y, run, k);
      }
      SamePlace(starts, b, y, |run| - 1, |y|);
    }
    if run == [b] + y {
      forall i | 0 <= i < |run| - 1 ensures HasEdge(m, run[i], run[i + 1]) {
        LineEdge(starts, b, y, run[i], run[i + 1]);
      }
    }
  }

  lemma LineCosts(starts: set<Activity>, b: Activity, y: seq<Activity>, t: seq<Activity>)
    requires Fresh(y, starts) && b in starts
    ensures IsLeastRunCost(Line(starts, b, y), t, RunCost(t, [b] + y))
    ensures IsDistanceToModel(Line(starts, b, y), t, Lev(t, [b] + y))
  {
    hide Accepts, RunCost, Lev, Line;
    LineAccepts(starts, b, y, [b] + y);
    forall run | Accepts(Line(starts, b, y), run) ensures run == [b] + y {
      LineAccepts(starts, b, y, run);
    }
  }

  // ---------- exactly when the cost is the distance ----------

  /** On every model with these start activities the cost of `t` is its edit distance to the nearest run. */
  ghost predicate CostIsDistance(starts: set<Activity>, t: seq<Activity>) {
    forall m: DfgModel, cost, distance |
      m.startActivities.Keys == starts && IsLeastRunCost(m, t, cost) && IsDistanceToModel(m, t, distance) :: cost == distance
  }

  /** A start activity that the trace does not begin with makes for a line that is charged too little. */
  lemma OtherStartDiffers(starts: set<Activity>, b: Activity, t: seq<Activity>)
    returns (m: DfgModel, cost: nat, distance: nat)
    requires b in starts && (t == [] || t[0] != b)
    ensures m.startActivities.Keys == starts && IsLeastRunCost(m, t, cost) && IsDistanceToModel(m, t, distance)
    ensures cost <= |t| < distance
  {
    hide IsLeastRunCost, IsDistanceToModel, Lev;
    var y := FreshActivities(starts + set a | a in t, |t|);
    LineCosts(starts, b, y, t);
    m, cost, distance := Line(starts, b, y), RunCost(t, [b] + y), Lev(t, [b] + y);
    LevBounds(t, y);
    assert ([b] + y)[1..] == y;
    LevForeignBehind(t, b, y);
  }

  /**
   * Whatever the model, as far as its start activities go: the cost is the edit distance to the nearest run exactly
   * for the traces that begin with its one and only start activity.
   */
  lemma CostIsDistanceIff(starts: set<Activity>, t: seq<Activity>)
    requires starts != {}
    ensures CostIsDistance(starts, t) <==> t != [] && starts == {t[0]}
  {
    hide IsLeastRunCost, IsDistanceToModel;
    if t != [] && starts == {t[0]} {
      forall m: DfgModel, cost, distance |
        m.startActivities.Keys == starts && IsLeastRunCost(m, t, cost) && IsDistanceToModel(m, t, distance)
        ensures cost == distance
      {
        SharedStartIsExact(m, t, cost, distance);
      }
    } else {
      var b := OtherStart(starts, t);
      var m, cost, distance := OtherStartDiffers(starts, b, t);
      assert cost != distance;
    }
  }

  lemma OtherStart(starts: set<Activity>, t: seq<Activity>) returns (b: Activity)
    requires starts != {} && (t == [] || starts != {t[0]})
    ensures b in starts && (t == [] || t[0] != b)
  {
    b :| b in starts;
    if t != [] && b == t[0] {
      assert starts - {b} != {};
      b :| b in starts - {t[0]};
    }
  }

  /** The empty trace is always charged one move too few. */
  lemma EmptyTraceIsUndercharged(m: DfgModel, cost: nat, distance: nat)
    requires IsLeastRunCost(m, [], cost) && IsDistanceToModel(m, [], distance)
    ensures distance == cost + 1
  {
    forall run | Accepts(m, run) ensures Lev([], run) == RunCost([], run) + 1 {
    }
  }

  /** With its start last, a trace can be charged one move too many: three, where deleting two events would do. */
  lemma LateStartIsOvercharged()
    ensures IsLeastRunCost(Line({"a"}, "a", []), ["x", "y", "a"], 3)
    ensures IsDistanceToModel(Line({"a"}, "a", []), ["x", "y", "a"], 2)
  {
    hide IsLeastRunCost, IsDistanceToModel, Line, Lev;
    var t, run := ["x", "y", "a"], ["a"];
    LineCosts({"a"}, "a", [], t);
    assert run + [] == run && |t[1..]| == 2 && run[1..] == [];
    LevOfNothing(t, []);
    LevOfNothing(t[1..], []);
    assert Front(t) == ["x", "y"] && Front(run) == [];
    LevOfNothing(Front(t), []);
    LevBounds(t, run);
    LevUnfolds(t, run);
  }

  /** For every trace there is a model on which the cost is not the distance. */
  lemma EveryTraceCanDiffer(t: seq<Activity>) returns (m: DfgModel, cost: nat, distance: nat)
    ensures IsLeastRunCost(m, t, cost) && IsDistanceToModel(m, t, distance) && cost != distance
  {
    var b := ForeignActivity(set a | a in t);
    m, cost, distance := OtherStartDiffers({b}, b, t);
  }
}
