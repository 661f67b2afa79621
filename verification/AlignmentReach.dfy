/** The states an alignment can stand on: the activities that the model's edges reach, once for every trace position. */
module AlignmentReach {
  import opened Basics
  import opened EditDistance
  import opened AlignmentGraph

  // ---------- reachable activities ----------

  function Successors(m: DfgModel, from: set<Activity>): set<Activity> {
    set e | e in m.edges && e.source in from :: e.target
  }

  /** What at most `k` edges reach from the start activities. */
  function Reach(m: DfgModel, k: nat): set<Activity> {
    if k == 0 then m.startActivities.Keys else Reach(m, k - 1) + Successors(m, Reach(m, k - 1))
  }

  function Reachable(m: DfgModel): set<Activity> {
    Reach(m, |m.edges|)
  }

  ghost predicate Closed(m: DfgModel, v: set<Activity>) {
    forall a, b | a in v && HasEdge(m, a, b) :: b in v
  }

  function TargetSet(edges: seq<DfgEdge>): set<Activity> {
    set e | e in edges :: e.target
  }

  lemma {:induction false} TargetCount(edges: seq<DfgEdge>)
    ensures |TargetSet(edges)| <= |edges|
  {
    if edges != [] {
      TargetCount(edges[1..]);
      assert TargetSet(edges) == TargetSet(edges[1..]) + {edges[0].target};
    }
  }

  lemma {:induction false} ReachWithinTargets(m: DfgModel, k: nat)
    ensures m.startActivities.Keys <= Reach(m, k) <= m.startActivities.Keys + TargetSet(m.edges)
  {
    if k > 0 {
      ReachWithinTargets(m, k - 1);
    }
  }

  lemma ClosedStays(m: DfgModel, k: nat)
    requires Closed(m, Reach(m, k))
    ensures Reach(m, k + 1) == Reach(m, k)
  {
    assert forall e | e in m.edges :: HasEdge(m, e.source, e.target);
  }

  lemma OpenGrows(m: DfgModel, k: nat)
    requires !Closed(m, Reach(m, k))
    ensures |Reach(m, k + 1)| > |Reach(m, k)|
  {
    var now := Reach(m, k);
    var a, b :| a in now && HasEdge(m, a, b) && b !in now;
    assert b in Successors(m, now);
    SubsetIsSmaller(now + {b}, Reach(m, k + 1));
  }

  /** Until nothing new is reached, every step reaches something new. */
  lemma {:induction false} ReachGrows(m: DfgModel, k: nat)
    ensures Closed(m, Reach(m, k)) || |Reach(m, k + 1)| > |Reach(m, 0)| + k
  {
    hide Closed, Reach;
    if k > 0 {
      ReachGrows(m, k - 1);
      if Closed(m, Reach(m, k - 1)) {
        ClosedStays(m, k - 1);
      }
    }
    if !Closed(m, Reach(m, k)) {
      OpenGrows(m, k);
    }
  }

  lemma ReachableIsClosed(m: DfgModel)
    ensures Closed(m, Reachable(m))
  {
    hide Closed;
    var k := |m.edges|;
    ReachGrows(m, k);
    ReachWithinTargets(m, k + 1);
    TargetCount(m.edges);
    SubsetIsSmaller(Reach(m, k + 1), m.startActivities.Keys + TargetSet(m.edges));
  }

  /** Walks stay within the trace and among the reachable activities. */
  lemma {:induction false} WalkStaysReachable(m: DfgModel, t: seq<Activity>, w: Walk)
    requires Valid(m, t, w)
    ensures End(w).index <= |t| && End(w).activity in Reachable(m)
  {
    ReachWithinTargets(m, |m.edges|);
    ReachableIsClosed(m);
    match w
    case Skip(_) =>
    case Begin(_) =>
    case LogMove(p) => WalkStaysReachable(m, t, p);
    case ModelMove(p, _) => WalkStaysReachable(m, t, p);
    case SyncMove(p, _) => WalkStaysReachable(m, t, p);
  }

  /** Every activity that `k` edges reach has a walk of at most `k` model moves. */
  lemma {:induction false} ReachHasWalk(m: DfgModel, t: seq<Activity>, k: nat, a: Activity) returns (w: Walk)
    requires a in Reach(m, k)
    ensures Valid(m, t, w) && End(w) == State(0, a) && Cost(t, w) <= k
  {
    if k == 0 {
      w := Skip(a);
    } else if a in Reach(m, k - 1) {
      w := ReachHasWalk(m, t, k - 1, a);
    } else {
      var e :| e in m.edges && e.source in Reach(m, k - 1) && e.target == a;
      w := ReachHasWalk(m, t, k - 1, e.source);
      w := ModelMove(w, a);
    }
  }

  lemma {:induction false} RunStaysReachable(m: DfgModel, run: seq<Activity>)
    requires run != [] && run[0] in m.startActivities && Follows(m, run)
    ensures run[|run| - 1] in Reachable(m)
  {
    ReachWithinTargets(m, |m.edges|);
    if |run| > 1 {
      var init := run[..|run| - 1];
      assert forall i | 0 <= i < |init| - 1 :: HasEdge(m, run[i], run[i + 1]);
      RunStaysReachable(m, init);
      ReachableIsClosed(m);
      assert HasEdge(m, run[|init| - 1], run[|init| - 1 + 1]);
    }
  }

  lemma {:induction false} ReachHasRun(m: DfgModel, k: nat, a: Activity) returns (run: seq<Activity>)
    requires a in Reach(m, k)
    ensures run != [] && run[0] in m.startActivities && Follows(m, run) && run[|run| - 1] == a
  {
    if k == 0 {
      run := [a];
    } else if a in Reach(m, k - 1) {
      run := ReachHasRun(m, k - 1, a);
    } else {
      var e :| e in m.edges && e.source in Reach(m, k - 1) && e.target == a;
      var init := ReachHasRun(m, k - 1, e.source);
      run := init + [a];
      forall i | 0 <= i < |run| - 1 ensures HasEdge(m, run[i], run[i + 1]) {
        if i < |init| - 1 {
          assert HasEdge(m, init[i], init[i + 1]);
        }
      }
    }
  }

  /** Reachable are the activities at the end of some sequence of edges that begins with a start activity. */
  lemma ReachableIff(m: DfgModel, a: Activity)
    ensures a in Reachable(m) <==>
            exists run :: run != [] && run[0] in m.startActivities && Follows(m, run) && run[|run| - 1] == a
  {
    hide Reachable, Follows;
    if a in Reachable(m) {
      var run := ReachableHasRun(m, a);
    }
    if run :| run != [] && run[0] in m.startActivities && Follows(m, run) && run[|run| - 1] == a {
      RunStaysReachable(m, run);
    }
  }

  lemma ReachableHasRun(m: DfgModel, a: Activity) returns (run: seq<Activity>)
    requires a in Reachable(m)
    ensures run != [] && run[0] in m.startActivities && Follows(m, run) && run[|run| - 1] == a
  {
    run := ReachHasRun(m, |m.edges|, a);
  }

  // ---------- states by position ----------

  function Column(i: nat, v: set<Activity>): set<State> {
    set a | a in v :: State(i, a)
  }

  /** The states at the positions before `n`. */
  function Grid(n: nat, v: set<Activity>): set<State> {
    if n == 0 then {} else Grid(n - 1, v) + Column(n - 1, v)
  }

  lemma {:induction false} ColumnSize(i: nat, v: set<Activity>)
    ensures |Column(i, v)| == |v|
    decreases v
  {
    if v != {} {
      var a :| a in v;
      ColumnSize(i, v - {a});
      assert Column(i, v) == Column(i, v - {a}) + {State(i, a)};
    }
  }

  lemma {:induction false} GridHasIff(n: nat, v: set<Activity>, st: State)
    ensures st in Grid(n, v) <==> st.index < n && st.activity in v
  {
    if n > 0 {
      GridHasIff(n - 1, v, st);
    }
  }

  lemma GridSplits(n: nat, v: set<Activity>)
    requires n > 0
    ensures |Grid(n, v)| == |Grid(n - 1, v)| + |v|
  {
    hide Column;
    ColumnSize(n - 1, v);
    ColumnIndex(n - 1, v);
    forall st | st in Grid(n - 1, v) ensures st.index < n - 1 {
      GridHasIff(n - 1, v, st);
    }
    assert Grid(n - 1, v) !! Column(n - 1, v);
  }

  lemma ColumnIndex(i: nat, v: set<Activity>)
    ensures forall st | st in Column(i, v) :: st.index == i
  {
  }

  lemma {:induction false} GridSize(n: nat, v: set<Activity>)
    ensures |Grid(n, v)| == n * |v|
  {
    hide Grid;
    if n > 0 {
      GridSize(n - 1, v);
      GridSplits(n, v);
      Distribute(n - 1, |v|);
    } else {
      NoGrid(v);
    }
  }

  lemma NoGrid(v: set<Activity>)
    ensures Grid(0, v) == {}
  {
  }

  lemma Distribute(a: int, b: int)
    ensures (a + 1) * b == a * b + b
  {
  }

  /** All states that an alignment of the trace can stand on. */
  function States(m: DfgModel, t: seq<Activity>): set<State> {
    Grid(|t| + 1, Reachable(m))
  }

  lemma WalkEndsInStates(m: DfgModel, t: seq<Activity>, w: Walk)
    requires Valid(m, t, w)
    ensures End(w) in States(m, t)
  {
    WalkStaysReachable(m, t, w);
    GridHasIff(|t| + 1, Reachable(m), End(w));
  }

  lemma StateCount(m: DfgModel, t: seq<Activity>)
    ensures |States(m, t)| == (|t| + 1) * |Reachable(m)|
  {
    GridSize(|t| + 1, Reachable(m));
  }
}
