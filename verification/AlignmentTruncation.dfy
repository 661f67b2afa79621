/** When the search gives up at its own bound, and when it aligns whatever can be aligned. */
module AlignmentTruncation {
  import opened Basics
  import opened EditDistance
  import opened AlignmentGraph
  import opened AlignmentReach
  import opened AlignmentOutcome
  import opened AlignmentTheorems

  // ---------- every search has an outcome ----------

  lemma {:induction false} ShortestExists(m: DfgModel, t: seq<Activity>, w: Walk) returns (v: Walk)
    requires Valid(m, t, w)
    ensures Shortest(m, t, v) && End(v) == End(w)
    decreases Cost(t, w)
  {
    if Shortest(m, t, w) {
      v := w;
    } else {
      v :| Valid(m, t, v) && End(v) == End(w) && Cost(t, v) < Cost(t, w);
      v := ShortestExists(m, t, v);
    }
  }

  ghost predicate AllReached(m: DfgModel, t: seq<Activity>, states: set<State>) {
    forall st | st in states :: exists w :: Shortest(m, t, w) && End(w) == st
  }

  /** One of finitely many reached states comes first in the heap order. */
  lemma {:induction false} NearestOf(m: DfgModel, t: seq<Activity>, states: set<State>) returns (w: Walk)
    requires states != {} && AllReached(m, t, states)
    ensures Shortest(m, t, w) && End(w) in states
    ensures forall v | Valid(m, t, v) && End(v) in states && End(v) != End(w) :: Before(Key(t, w), Key(t, v))
    decreases |states|
  {
    hide Valid, Cost, Before;
    var st :| st in states;
    var x :| Shortest(m, t, x) && End(x) == st;
    if states == {st} {
      w := x;
    } else {
      var y := NearestOf(m, t, states - {st});
      BeforeTotal(Key(t, x), Key(t, y));
      w := if Before(Key(t, x), Key(t, y)) then x else y;
      forall v | Valid(m, t, v) && End(v) in states && End(v) != End(w) ensures Before(Key(t, w), Key(t, v)) {
        NearerWins(m, t, states - {st}, x, y, v);
      }
    }
  }

  lemma NearerWins(m: DfgModel, t: seq<Activity>, others: set<State>, x: Walk, y: Walk, v: Walk)
    requires Shortest(m, t, x) && Shortest(m, t, y) && End(x) !in others && End(y) in others
    requires forall u | Valid(m, t, u) && End(u) in others && End(u) != End(y) :: Before(Key(t, y), Key(t, u))
    requires Valid(m, t, v) && (End(v) == End(x) || End(v) in others)
    ensures Before(Key(t, x), Key(t, y)) && End(v) != End(x) ==> Before(Key(t, x), Key(t, v))
    ensures !Before(Key(t, x), Key(t, y)) && End(v) != End(y) ==> Before(Key(t, y), Key(t, v))
  {
    BeforeTotal(Key(t, x), Key(t, y));
    var nearest := if End(v) == End(x) then x else y;
    var far := if End(v) == End(x) then y else x;
    if End(v) == End(x) || End(v) == End(y) {
      NoFarther(far, nearest, v, t);
    } else {
      if Before(Key(t, x), Key(t, y)) {
        BeforeTransitive(Key(t, x), Key(t, y), Key(t, v));
      }
    }
  }

  lemma NoFarther(far: Walk, near: Walk, v: Walk, t: seq<Activity>)
    requires End(v) == End(near) && Cost(t, near) <= Cost(t, v)
    ensures Before(Key(t, far), Key(t, near)) ==> Before(Key(t, far), Key(t, v))
  {
  }

  /** What is left to reach has a nearest state, which is next. */
  lemma NextNearest(m: DfgModel, t: seq<Activity>, near: set<State>, u: Walk) returns (w: Walk)
    requires Nearest(m, t, near) && Valid(m, t, u) && End(u) !in near
    ensures Shortest(m, t, w) && End(w) !in near && End(w) in States(m, t)
    ensures Nearest(m, t, near + {End(w)})
  {
    hide Valid, Cost, Before, States;
    var left := set st | st in States(m, t) && st !in near && exists v :: Shortest(m, t, v) && End(v) == st;
    forall v | Valid(m, t, v) && End(v) !in near ensures End(v) in left {
      WalkEndsInStates(m, t, v);
      var x := ShortestExists(m, t, v);
    }
    assert End(u) in left;
    w := NearestOf(m, t, left);
    forall v, x | Shortest(m, t, v) && End(v) in near + {End(w)} && Valid(m, t, x) && End(x) !in near + {End(w)}
      ensures Before(Key(t, v), Key(t, x))
    {
      if End(v) !in near {
        SameKey(m, t, v, w);
      }
    }
  }

  lemma SameKey(m: DfgModel, t: seq<Activity>, v: Walk, w: Walk)
    requires Shortest(m, t, v) && Shortest(m, t, w) && End(v) == End(w)
    ensures Key(t, v) == Key(t, w)
  {
  }

  lemma {:induction false} OutcomeFrom(m: DfgModel, t: seq<Activity>, near: set<State>) returns (r: AlignResult)
    requires m.startActivities != map[] && m.endActivities != map[]
    requires near <= States(m, t) && Nearest(m, t, near) && NoGoal(m, t, near) && !Exceeds(|near|, StateBound(m, t))
    ensures Outcome(m, t, r)
    decreases |States(m, t) - near|
  {
    hide Nearest, States, StateBound;
    if u :| Valid(m, t, u) && End(u) !in near {
      var w := NextNearest(m, t, near, u);
      if Exceeds(|near| + 1, StateBound(m, t)) {
        assert TruncatedVia(m, t, near, w);
        r := Failed(SearchTruncated);
      } else if IsGoal(m, t, End(w)) {
        assert AlignedVia(m, t, Cost(t, w), |near| + 1, near, w);
        r := Aligned(Cost(t, w), |near| + 1);
      } else {
        var more := near + {End(w)};
        SubsetIsSmaller(States(m, t) - more, (States(m, t) - near) - {End(w)});
        r := OutcomeFrom(m, t, more);
      }
    } else {
      assert ExhaustedVia(m, t, near);
      r := Failed(NoAlignment);
    }
  }

  /** With `OutcomeIsUnique`: every model and trace have exactly one outcome. */
  lemma OutcomeExists(m: DfgModel, t: seq<Activity>) returns (r: AlignResult)
    ensures Outcome(m, t, r)
  {
    if m.startActivities == map[] || m.endActivities == map[] {
      r := Failed(MissingBoundary);
    } else {
      r := OutcomeFrom(m, t, {});
    }
  }

  /** The states that do not come behind the walk in the heap order. */
  ghost predicate UpTo(m: DfgModel, t: seq<Activity>, w: Walk, passed: set<State>) {
    forall st :: st in passed <==>
      exists v :: Shortest(m, t, v) && End(v) == st && !Before(Key(t, w), Key(t, v))
  }

  /**
   * The expansions are one for each state that does not come behind the goal in the heap order, which is by cost, then
   * position, then activity; and the goal comes before all others.
   */
  lemma ExpandedAreNearest(m: DfgModel, t: seq<Activity>, r: AlignResult) returns (w: Walk, passed: set<State>)
    requires Outcome(m, t, r) && r.Aligned?
    ensures Shortest(m, t, w) && Cost(t, w) == r.cost
    ensures End(w).index == |t| && End(w).activity in m.endActivities
    ensures forall v | Shortest(m, t, v) && End(v) in passed :: End(v) == End(w) || !IsGoal(m, t, End(v))
    ensures UpTo(m, t, w, passed) && r.expanded == |passed|
  {
    hide Nearest, Shortest, NoGoal, UpTo;
    var near, goal :| AlignedVia(m, t, r.cost, r.expanded, near, goal);
    w, passed := goal, near + {End(goal)};
    PassedAreUpTo(m, t, near, w);
    forall v | Shortest(m, t, v) && End(v) in passed ensures End(v) == End(w) || !IsGoal(m, t, End(v)) {
      if IsGoal(m, t, End(v)) {
        GoalIsNotNear(m, t, near, v);
      }
    }
    GoalIsNotNear(m, t, near, w);
  }

  lemma PassedAreUpTo(m: DfgModel, t: seq<Activity>, near: set<State>, w: Walk)
    requires Nearest(m, t, near) && Nearest(m, t, near + {End(w)}) && NoGoal(m, t, near)
    requires Shortest(m, t, w) && IsGoal(m, t, End(w))
    ensures UpTo(m, t, w, near + {End(w)})
  {
    hide Before, Valid, Cost;
    var passed := near + {End(w)};
    forall st ensures st in passed <==> exists v :: Shortest(m, t, v) && End(v) == st && !Before(Key(t, w), Key(t, v)) {
      if st in passed {
        var v :| Shortest(m, t, v) && End(v) == st;
        NotBehind(m, t, near, w, v);
      } else {
        assert End(w) in passed;
      }
    }
  }

  lemma GoalIsNotNear(m: DfgModel, t: seq<Activity>, near: set<State>, w: Walk)
    requires NoGoal(m, t, near) && IsGoal(m, t, End(w))
    ensures End(w) !in near
  {
  }

  lemma NotBehind(m: DfgModel, t: seq<Activity>, near: set<State>, w: Walk, v: Walk)
    requires Nearest(m, t, near) && NoGoal(m, t, near) && Shortest(m, t, w) && IsGoal(m, t, End(w))
    requires Shortest(m, t, v) && End(v) in near + {End(w)}
    ensures !Before(Key(t, w), Key(t, v))
  {
    hide Before;
    BeforeTotal(Key(t, w), Key(t, v));
    if End(v) in near {
      GoalIsNotNear(m, t, near, w);
    } else {
      SameKey(m, t, v, w);
    }
  }

  // ---------- when the bound is exceeded ----------

  /** Room for one expansion of each listed activity at each position of the trace, and one more. */
  lemma BoundIs(m: DfgModel, t: seq<Activity>)
    requires StateBound(m, t) < USIZE_MAX
    ensures StateBound(m, t) == (|t| + 1) * Max(|m.activities|, 1) + 1
  {
  }

  lemma ProductMonotone(a: nat, b: nat, c: nat)
    requires b <= c
    ensures a * b <= a * c
  {
  }

  /** A model that lists as many activities as its edges reach is never truncated. */
  lemma TruncationNeedsMoreReachable(m: DfgModel, t: seq<Activity>)
    requires Outcome(m, t, Failed(SearchTruncated))
    ensures |Reachable(m)| > Max(|m.activities|, 1)
  {
    hide Nearest, Reachable, States;
    var near, w :| TruncatedVia(m, t, near, w);
    BoundIs(m, t);
    forall st | st in near ensures st in States(m, t) {
      NearIsReached(m, t, near, st);
    }
    SubsetIsSmaller(near, States(m, t));
    StateCount(m, t);
    if |Reachable(m)| <= Max(|m.activities|, 1) {
      ProductMonotone(|t| + 1, |Reachable(m)|, Max(|m.activities|, 1));
    }
  }

  lemma NearIsReached(m: DfgModel, t: seq<Activity>, near: set<State>, st: State)
    requires Nearest(m, t, near) && st in near
    ensures st in States(m, t)
  {
    var w :| Shortest(m, t, w) && End(w) == st;
    WalkEndsInStates(m, t, w);
  }

  /** No event of the trace names an activity that the model reaches. */
  predicate Foreign(m: DfgModel, t: seq<Activity>) {
    forall i | 0 <= i < |t| :: t[i] !in Reachable(m)
  }

  /** Every event of a foreign trace costs a move. */
  lemma {:induction false} ForeignCost(m: DfgModel, t: seq<Activity>, w: Walk)
    requires Valid(m, t, w) && Foreign(m, t)
    ensures End(w).index <= Cost(t, w)
  {
    hide Reachable, HasEdge;
    WalkStaysReachable(m, t, w);
    match w
    case Skip(_) =>
    case Begin(_) =>
    case LogMove(p) => ForeignCost(m, t, p);
    case ModelMove(p, _) => ForeignCost(m, t, p);
    case SyncMove(p, _) =>
      ForeignCost(m, t, p);
      WalkStaysReachable(m, t, p);
  }

  /** Model moves to a reachable activity, and log moves to a position. */
  lemma {:induction false} EarlyHasWalk(m: DfgModel, t: seq<Activity>, i: nat, a: Activity) returns (w: Walk)
    requires a in Reachable(m) && i <= |t|
    ensures Valid(m, t, w) && End(w) == State(i, a) && Cost(t, w) <= |m.edges| + i
  {
    if i == 0 {
      w := ReachHasWalk(m, t, |m.edges|, a);
    } else {
      w := EarlyHasWalk(m, t, i - 1, a);
      w := LogMove(w);
    }
  }

  /** The length from which on the states before the end of a trace outnumber the bound. */
  function TruncatingLength(m: DfgModel): nat {
    |m.edges| * (Max(|m.activities|, 1) + 1) + Max(|m.activities|, 1) + 2
  }

  lemma EarlyStatesOutnumberBound(m: DfgModel, t: seq<Activity>)
    requires |Reachable(m)| > Max(|m.activities|, 1) && |t| >= TruncatingLength(m)
    ensures |m.edges| <= |t| && |Grid(|t| - |m.edges|, Reachable(m))| > StateBound(m, t)
  {
    hide Grid, Reachable;
    var n, k, a := |t|, |m.edges|, Max(|m.activities|, 1);
    assert k <= k * (a + 1);
    GridSize(n - k, Reachable(m));
    ProductMonotone(n - k, a + 1, |Reachable(m)|);
    assert (n - k) * (a + 1) == n * a + n - k * (a + 1);
    assert (n + 1) * a + 1 == n * a + a + 1;
  }

  /** A reachable state that costs less than an end of the trace comes before it. */
  lemma EarlyStateIsNear(m: DfgModel, t: seq<Activity>, near: set<State>, w: Walk, st: State)
    requires Foreign(m, t) && |m.edges| <= |t| && st in Grid(|t| - |m.edges|, Reachable(m))
    requires Nearest(m, t, near + {End(w)}) && Shortest(m, t, w) && End(w).index == |t|
    ensures st in near
  {
    hide Reachable, Foreign;
    GridHasIff(|t| - |m.edges|, Reachable(m), st);
    var x := EarlyHasWalk(m, t, st.index, st.activity);
    ForeignCost(m, t, w);
    assert Cost(t, x) < Cost(t, w);
    assert !Before(Key(t, w), Key(t, x)) && End(w) in near + {End(w)};
  }

  /** Too many reachable activities and a long enough trace that the model does not know: nothing but truncation is left. */
  lemma LongForeignTraceTruncates(m: DfgModel, t: seq<Activity>, r: AlignResult)
    requires m.startActivities != map[] && m.endActivities != map[]
    requires |Reachable(m)| > Max(|m.activities|, 1) && StateBound(m, t) < USIZE_MAX
    requires Foreign(m, t) && |t| >= TruncatingLength(m) && Outcome(m, t, r)
    ensures r == Failed(SearchTruncated)
  {
    hide Nearest, Reachable, Foreign, Grid, StateBound, Shortest, NoGoal;
    EarlyStatesOutnumberBound(m, t);
    var early := Grid(|t| - |m.edges|, Reachable(m));
    if r.Aligned? {
      var near, w :| AlignedVia(m, t, r.cost, r.expanded, near, w);
      forall st | st in early ensures st in near {
        EarlyStateIsNear(m, t, near, w, st);
      }
      SubsetIsSmaller(early, near);
    } else if r == Failed(NoAlignment) {
      var near :| ExhaustedVia(m, t, near);
      forall st | st in early ensures st in near {
        GridHasIff(|t| - |m.edges|, Reachable(m), st);
        var x := EarlyHasWalk(m, t, st.index, st.activity);
      }
      SubsetIsSmaller(early, near);
    }
  }

  /** The bound of the shortest trace that is sure to be truncated is no saturated one. */
  predicate Representable(m: DfgModel) {
    (TruncatingLength(m) + 1) * Max(|m.activities|, 1) + 1 < USIZE_MAX
  }

  /** Some trace is truncated exactly when the edges reach more activities than the model lists. */
  lemma TruncatesSomeTraceIff(m: DfgModel)
    requires m.startActivities != map[] && m.endActivities != map[] && Representable(m)
    ensures (exists t :: Outcome(m, t, Failed(SearchTruncated))) <==> |Reachable(m)| > Max(|m.activities|, 1)
  {
    hide Outcome, Reachable;
    if t :| Outcome(m, t, Failed(SearchTruncated)) {
      TruncationNeedsMoreReachable(m, t);
    }
    if |Reachable(m)| > Max(|m.activities|, 1) {
      var a := ForeignActivity(Reachable(m));
      var t := seq(TruncatingLength(m), _ => a);
      var r := OutcomeExists(m, t);
      LongForeignTraceTruncates(m, t, r);
    }
  }

  // ---------- models that the search always aligns ----------

  lemma {:induction false} ListedSize(v: set<Activity>, listed: seq<Activity>)
    requires forall a | a in v :: a in listed
    ensures |v| <= |listed|
  {
    if listed != [] {
      ListedSize(v - {listed[0]}, listed[1..]);
    } else {
      assert v == {};
    }
  }

  /** Listing the reachable activities is enough. */
  lemma ListedIsAllowed(m: DfgModel)
    requires forall a | a in Reachable(m) :: a in m.activities
    ensures |Reachable(m)| <= Max(|m.activities|, 1)
  {
    ListedSize(Reachable(m), m.activities);
  }

  /**
   * With room for all reachable activities, every trace can be aligned exactly when some run is accepting,
   * and then for no more than the longer of the trace and the steps of any accepting run.
   */
  lemma AlignsExactlyWhenARunExists(m: DfgModel, t: seq<Activity>, r: AlignResult)
    requires Outcome(m, t, r) && |Reachable(m)| <= Max(|m.activities|, 1)
    ensures r.Aligned? <==> exists run :: Accepts(m, run)
    ensures r.Aligned? ==> forall run | Accepts(m, run) :: r.cost <= Max(|t|, |run| - 1)
  {
    hide Outcome, Reachable;
    AlignedIsLeastRunCost(m, t, r);
    match r
    case Failed(SearchTruncated) => TruncationNeedsMoreReachable(m, t);
    case Failed(NoAlignment) =>
    case Failed(MissingBoundary) =>
    case Aligned(_, _) =>
      forall run | Accepts(m, run) ensures r.cost <= Max(|t|, |run| - 1) {
        RunCostWithinOne(t, run);
      }
  }

  /** The search aligns every trace exactly when the model has an accepting run and lists enough activities. */
  lemma AlignsEveryTraceIff(m: DfgModel)
    requires Representable(m)
    ensures (forall t, r | Outcome(m, t, r) :: r.Aligned?)
            <==> (exists run :: Accepts(m, run)) && |Reachable(m)| <= Max(|m.activities|, 1)
  {
    hide Outcome, Reachable, Accepts, Representable;
    if (exists run :: Accepts(m, run)) && |Reachable(m)| <= Max(|m.activities|, 1) {
      forall t, r | Outcome(m, t, r) ensures r.Aligned? {
        AlignsExactlyWhenARunExists(m, t, r);
      }
    } else if |Reachable(m)| <= Max(|m.activities|, 1) {
      var r := OutcomeExists(m, []);
      AlignsExactlyWhenARunExists(m, [], r);
    } else if m.startActivities != map[] && m.endActivities != map[] {
      TruncatesSomeTraceIff(m);
      var t :| Outcome(m, t, Failed(SearchTruncated));
      assert !(forall t, r | Outcome(m, t, r) :: r.Aligned?);
    } else {
      MissingBoundaryOutcome(m);
    }
  }

  /** A model that lists every activity its edges reach is aligned with every trace as soon as it has a run. */
  lemma ListedModelAlignsIff(m: DfgModel)
    requires forall a | a in Reachable(m) :: a in m.activities
    ensures (forall t, r | Outcome(m, t, r) :: r.Aligned?) <==> exists run :: Accepts(m, run)
  {
    hide Outcome, Reachable, Accepts;
    ListedIsAllowed(m);
    if exists run :: Accepts(m, run) {
      forall t, r | Outcome(m, t, r) ensures r.Aligned? {
        AlignsExactlyWhenARunExists(m, t, r);
      }
    } else {
      var r := OutcomeExists(m, []);
      AlignsExactlyWhenARunExists(m, [], r);
    }
  }

  lemma MissingBoundaryOutcome(m: DfgModel)
    requires m.startActivities == map[] || m.endActivities == map[]
    ensures Outcome(m, [], Failed(MissingBoundary))
  {
  }

  // ---------- a model that does not list its activities ----------

  /** Three activities in a row, none of them listed. */
  const UNLISTED: DfgModel :=
    DfgModel([], map["a" := 1], map["c" := 1], [DfgEdge("a", "b", "", 1), DfgEdge("b", "c", "", 1)])

  const TO_A: Walk := Skip("a")
  const TO_B: Walk := ModelMove(TO_A, "b")
  const TO_C: Walk := ModelMove(TO_B, "c")

  lemma {:induction false} UnlistedWalks(w: Walk)
    ensures Valid(UNLISTED, [], w) <==> w in {TO_A, TO_B, TO_C}
  {
    assert DfgEdge("a", "b", "", 1) in UNLISTED.edges && DfgEdge("b", "c", "", 1) in UNLISTED.edges;
    assert HasEdge(UNLISTED, "a", "b") && HasEdge(UNLISTED, "b", "c");
    if w.LogMove? || w.ModelMove? || w.SyncMove? {
      UnlistedWalks(w.prev);
    }
  }

  lemma UnlistedNearest()
    ensures Nearest(UNLISTED, [], {State(0, "a"), State(0, "b")})
  {
    hide Valid;
    forall w ensures Valid(UNLISTED, [], w) <==> w in {TO_A, TO_B, TO_C} {
      UnlistedWalks(w);
    }
    assert Key([], TO_A) == Entry(0, State(0, "a")) && Key([], TO_B) == Entry(1, State(0, "b"));
    assert Key([], TO_C) == Entry(2, State(0, "c"));
    assert Shortest(UNLISTED, [], TO_A) && Shortest(UNLISTED, [], TO_B);
  }

  /** It has an accepting run, but the search gives up before the end of it. */
  lemma UnlistedActivitiesTruncate()
    ensures Accepts(UNLISTED, ["a", "b", "c"])
    ensures Outcome(UNLISTED, [], Failed(SearchTruncated))
  {
    hide Nearest;
    UnlistedNearest();
    UnlistedWalks(TO_C);
    var near := {State(0, "a"), State(0, "b")};
    assert End(TO_C) == State(0, "c");
    assert TruncatedVia(UNLISTED, [], near, TO_C);
  }
}
