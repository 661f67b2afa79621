/** The alignment cost measured against edit distance to the runs of the model. */
module AlignmentTheorems {
  import opened Basics
  import opened EditDistance
  import opened AlignmentGraph
  import opened AlignmentOutcome

  // ---------- walks and runs ----------

  function Start(w: Walk): Activity {
    match w
    case Skip(s) => s
    case Begin(s) => s
    case LogMove(p) => Start(p)
    case ModelMove(p, _) => Start(p)
    case SyncMove(p, _) => Start(p)
  }

  /** How many events the start entry has read. */
  function Offset(w: Walk): nat {
    match w
    case Skip(_) => 0
    case Begin(_) => 1
    case LogMove(p) => Offset(p)
    case ModelMove(p, _) => Offset(p)
    case SyncMove(p, _) => Offset(p)
  }

  /** The run of the model without its start activity. */
  function Tail(w: Walk): seq<Activity> {
    match w
    case Skip(_) => []
    case Begin(_) => []
    case LogMove(p) => Tail(p)
    case ModelMove(p, b) => Tail(p) + [b]
    case SyncMove(p, b) => Tail(p) + [b]
  }

  function StartCost(t: seq<Activity>, offset: nat, s: Activity): nat {
    if offset == 0 then 0 else PairCost(t, 0, s)
  }

  lemma FollowsExtends(m: DfgModel, run: seq<Activity>, b: Activity)
    requires run != []
    ensures Follows(m, run + [b]) <==> Follows(m, run) && HasEdge(m, Last(run), b)
  {
    var ext := run + [b];
    if Follows(m, ext) {
      forall i | 0 <= i < |run| - 1 ensures HasEdge(m, run[i], run[i + 1]) {
        assert HasEdge(m, ext[i], ext[i + 1]);
      }
      assert HasEdge(m, ext[|run| - 1], ext[|run|]);
    }
  }

  /** Every walk traces a run of the model. */
  lemma {:induction false} WalkTracesRun(m: DfgModel, t: seq<Activity>, w: Walk)
    requires Valid(m, t, w)
    ensures Start(w) in m.startActivities && Follows(m, [Start(w)] + Tail(w))
    ensures Last([Start(w)] + Tail(w)) == End(w).activity
  {
    hide Follows;
    if w.Skip? || w.Begin? {
      SingletonFollows(m, Start(w));
      assert [Start(w)] + Tail(w) == [Start(w)];
    } else {
      WalkTracesRun(m, t, w.prev);
      if !w.LogMove? {
        var run := [Start(w.prev)] + Tail(w.prev);
        assert [Start(w)] + Tail(w) == run + [w.target];
        FollowsExtends(m, run, w.target);
      }
    }
  }

  lemma SingletonFollows(m: DfgModel, s: Activity)
    ensures Follows(m, [s])
  {
  }

  /** No walk is cheaper than the edit distance between the events and the run it pairs up. */
  lemma {:induction false} WalkAboveDistance(m: DfgModel, t: seq<Activity>, w: Walk)
    requires Valid(m, t, w)
    ensures Offset(w) <= End(w).index <= |t| && Offset(w) <= 1
    ensures StartCost(t, Offset(w), Start(w)) + Lev(t[Offset(w)..End(w).index], Tail(w)) <= Cost(t, w)
  {
    hide HasEdge, Lev;
    if w.Skip? || w.Begin? {
      LevZero(t[Offset(w)..Offset(w)], []);
    } else {
      WalkAboveDistance(m, t, w.prev);
      var o, i := Offset(w.prev), End(w.prev).index;
      if !w.ModelMove? {
        assert t[o..i + 1] == t[o..i] + [t[i]];
      }
      LevAppend(t[o..i], if i < |t| then t[i] else "", Tail(w.prev), if w.LogMove? then "" else w.target);
    }
  }

  /** The recurrence of the edit distance on slices of the trace. */
  lemma LevOfSlice(t: seq<Activity>, o: nat, i: nat, q: seq<Activity>)
    requires o <= i <= |t|
    ensures i == o && q == [] ==> Lev(t[o..i], q) == 0
    ensures i == o && q != [] ==> Lev(t[o..i], q) == Lev(t[o..i], Front(q)) + 1
    ensures i > o && q == [] ==> Lev(t[o..i], q) == Lev(t[o..i - 1], q) + 1
    ensures i > o && q != [] ==>
              Lev(t[o..i], q) == Min(Min(Lev(t[o..i - 1], q), Lev(t[o..i], Front(q))) + 1,
                                     Lev(t[o..i - 1], Front(q)) + Mismatch(t[i - 1], Last(q)))
  {
    hide Lev;
    LevOfNothing(t[o..i], q);
    if i > o {
      SliceFront(t, o, i);
      LevOfNothing(t[o..i - 1], q);
      if q != [] {
        LevUnfolds(t[o..i], q);
      }
    } else if q != [] {
      LevOfNothing(t[o..i], Front(q));
    }
  }

  lemma SliceFront(t: seq<Activity>, o: nat, i: nat)
    requires o < i <= |t|
    ensures Front(t[o..i]) == t[o..i - 1] && Last(t[o..i]) == t[i - 1]
  {
  }

  /** Every edit distance to a run is the cost of some walk. */
  lemma {:induction false} DistanceHasWalk(m: DfgModel, t: seq<Activity>, s: Activity, o: nat, q: seq<Activity>, i: nat)
    returns (w: Walk)
    requires s in m.startActivities && Follows(m, [s] + q) && o <= 1 && o <= i <= |t|
    ensures Valid(m, t, w) && End(w) == State(i, Last([s] + q))
    ensures Cost(t, w) == StartCost(t, o, s) + Lev(t[o..i], q)
    decreases i + |q|
  {
    hide Follows, HasEdge, Lev;
    if q != [] {
      assert [s] + q == ([s] + Front(q)) + [Last(q)];
      FollowsExtends(m, [s] + Front(q), Last(q));
    }
    LevOfSlice(t, o, i, q);
    if i == o && q == [] {
      w := if o == 0 then Skip(s) else Begin(s);
    } else if i == o {
      w := DistanceHasWalk(m, t, s, o, Front(q), i);
      w := ModelMove(w, Last(q));
    } else if q == [] {
      w := DistanceHasWalk(m, t, s, o, q, i - 1);
      w := LogMove(w);
    } else if Lev(t[o..i], q) == Lev(t[o..i - 1], q) + 1 {
      w := DistanceHasWalk(m, t, s, o, q, i - 1);
      w := LogMove(w);
    } else if Lev(t[o..i], q) == Lev(t[o..i], Front(q)) + 1 {
      w := DistanceHasWalk(m, t, s, o, Front(q), i);
      w := ModelMove(w, Last(q));
    } else {
      w := DistanceHasWalk(m, t, s, o, Front(q), i - 1);
      w := SyncMove(w, Last(q));
    }
  }

  // ---------- what the search charges for a run ----------

  /** The start of the run is free; alternatively it is paired with the first event. */
  function RunCost(t: seq<Activity>, run: seq<Activity>): nat
    requires run != []
  {
    if t == [] then Lev(t, run[1..])
    else Min(Lev(t, run[1..]), Mismatch(t[0], run[0]) + Lev(t[1..], run[1..]))
  }

  ghost predicate IsLeastRunCost(m: DfgModel, t: seq<Activity>, cost: nat) {
    && (exists run :: Accepts(m, run) && RunCost(t, run) == cost)
    && (forall run | Accepts(m, run) :: cost <= RunCost(t, run))
  }

  lemma RunHasWalk(m: DfgModel, t: seq<Activity>, run: seq<Activity>) returns (w: Walk)
    requires Accepts(m, run)
    ensures Valid(m, t, w) && IsGoal(m, t, End(w)) && Cost(t, w) == RunCost(t, run)
  {
    assert [run[0]] + run[1..] == run;
    w := DistanceHasWalk(m, t, run[0], 0, run[1..], |t|);
    assert t[0..|t|] == t;
    if t != [] {
      var v := DistanceHasWalk(m, t, run[0], 1, run[1..], |t|);
      assert t[1..|t|] == t[1..];
      if Cost(t, v) < Cost(t, w) {
        w := v;
      }
    }
  }

  lemma WalkHasRun(m: DfgModel, t: seq<Activity>, w: Walk) returns (run: seq<Activity>)
    requires Valid(m, t, w) && IsGoal(m, t, End(w))
    ensures Accepts(m, run) && RunCost(t, run) <= Cost(t, w)
  {
    WalkTracesRun(m, t, w);
    WalkAboveDistance(m, t, w);
    run := [Start(w)] + Tail(w);
    assert run[1..] == Tail(w);
    assert t[0..|t|] == t && (t != [] ==> t[1..|t|] == t[1..]);
  }

  /** The returned cost is the least run cost; the error without a result means that no run is accepting. */
  lemma AlignedIsLeastRunCost(m: DfgModel, t: seq<Activity>, r: AlignResult)
    requires Outcome(m, t, r)
    ensures r.Aligned? ==> IsLeastRunCost(m, t, r.cost) && !Exceeds(r.expanded, StateBound(m, t))
    ensures r == Failed(NoAlignment) || r == Failed(MissingBoundary) ==> !exists run :: Accepts(m, run)
  {
    if r.Aligned? {
      var near, w :| AlignedVia(m, t, r.cost, r.expanded, near, w);
      forall run | Accepts(m, run) ensures r.cost <= RunCost(t, run) {
        var v := RunHasWalk(m, t, run);
        assert Valid(m, t, v) && IsGoal(m, t, End(v));
        assert End(w) in near + {End(w)};
        if End(v) != End(w) {
          assert Before(Key(t, w), Key(t, v));
        }
      }
      var run := WalkHasRun(m, t, w);
    } else if r == Failed(NoAlignment) {
      var near :| ExhaustedVia(m, t, near);
      forall run ensures !Accepts(m, run) {
        if Accepts(m, run) {
          var v := RunHasWalk(m, t, run);
        }
      }
    }
  }

  // ---------- the charge against plain edit distance ----------

  ghost predicate IsDistanceToModel(m: DfgModel, t: seq<Activity>, distance: nat) {
    && (exists run :: Accepts(m, run) && Lev(t, run) == distance)
    && (forall run | Accepts(m, run) :: distance <= Lev(t, run))
  }

  lemma RunCostWithinOne(t: seq<Activity>, run: seq<Activity>)
    requires run != []
    ensures RunCost(t, run) <= Lev(t, run) + 1
    ensures Lev(t, run) <= RunCost(t, run) + 1
    ensures RunCost(t, run) <= Max(|t|, |run| - 1)
  {
    assert run == [run[0]] + run[1..];
    LevPrependOne(t, run[0], run[1..]);
    LevBounds(t, run[1..]);
    if t != [] {
      assert t == [t[0]] + t[1..];
      LevPrependBoth(t[0], t[1..], run[0], run[1..]);
    }
  }

  /** The free start shifts the cost by at most one, in either direction. */
  lemma CostWithinOneOfDistance(m: DfgModel, t: seq<Activity>, cost: nat, distance: nat)
    requires IsLeastRunCost(m, t, cost) && IsDistanceToModel(m, t, distance)
    ensures cost <= distance + 1 && distance <= cost + 1
  {
    var a :| Accepts(m, a) && RunCost(t, a) == cost;
    var b :| Accepts(m, b) && Lev(t, b) == distance;
    RunCostWithinOne(t, a);
    RunCostWithinOne(t, b);
  }

  /** The trace is no run, but becomes one when a start activity is put in front. */
  predicate LacksOnlyItsStart(m: DfgModel, t: seq<Activity>) {
    !Accepts(m, t) && exists s | s in m.startActivities :: Accepts(m, [s] + t)
  }

  lemma RunCostZero(t: seq<Activity>, run: seq<Activity>)
    requires run != []
    ensures RunCost(t, run) == 0 <==> run[1..] == t || run == t
  {
    LevZero(t, run[1..]);
    assert run == [run[0]] + run[1..];
    if t != [] {
      assert t == [t[0]] + t[1..];
      LevZero(t[1..], run[1..]);
    }
  }

  lemma ZeroCostIff(m: DfgModel, t: seq<Activity>, cost: nat)
    requires IsLeastRunCost(m, t, cost)
    ensures cost == 0 <==> Accepts(m, t) || LacksOnlyItsStart(m, t)
  {
    hide RunCost, Lev, Follows;
    var a :| Accepts(m, a) && RunCost(t, a) == cost;
    RunCostZero(t, a);
    assert a == [a[0]] + a[1..];
    if Accepts(m, t) {
      RunCostZero(t, t);
    }
    if LacksOnlyItsStart(m, t) {
      var s :| s in m.startActivities && Accepts(m, [s] + t);
      RunCostZero(t, [s] + t);
      assert ([s] + t)[1..] == t;
    }
  }

  /** "Cost zero means that the trace fits the model" holds exactly for traces that do not merely lack their start. */
  lemma ZeroCostMeansFittingIff(m: DfgModel, t: seq<Activity>, cost: nat)
    requires IsLeastRunCost(m, t, cost)
    ensures (cost == 0 <==> Accepts(m, t)) <==> !LacksOnlyItsStart(m, t)
  {
    ZeroCostIff(m, t, cost);
  }
}
