/** What an alignment search has to return, said without a heap, a distance map or an order of exploration. */
module AlignmentOutcome {
  import opened Basics
  import opened EditDistance
  import opened AlignmentGraph

  datatype AlignError = MissingBoundary | NoAlignment | SearchTruncated

  datatype AlignResult = Aligned(cost: nat, expanded: nat) | Failed(error: AlignError)

  function Saturate(n: nat): nat {
    Min(n, USIZE_MAX)
  }

  /** The number of states the search allows itself to expand. */
  function StateBound(m: DfgModel, t: seq<Activity>): nat {
    Saturate(Saturate((|t| + 1) * Max(|m.activities|, 1)) + 1)
  }

  /** The counter of expansions has as many bits as the bound, so it never exceeds a saturated one. */
  predicate Exceeds(expanded: nat, bound: nat) {
    expanded > bound && bound < USIZE_MAX
  }

  /** `w` is a cheapest way to reach its own end. */
  ghost predicate Shortest(m: DfgModel, t: seq<Activity>, w: Walk) {
    Valid(m, t, w) && forall v | Valid(m, t, v) && End(v) == End(w) :: Cost(t, w) <= Cost(t, v)
  }

  /** `near` is an initial segment of the reachable states in the heap order of their least cost. */
  ghost predicate Nearest(m: DfgModel, t: seq<Activity>, near: set<State>) {
    && (forall st | st in near :: exists w :: Shortest(m, t, w) && End(w) == st)
    && (forall v, w | Shortest(m, t, v) && End(v) in near && Valid(m, t, w) && End(w) !in near ::
          Before(Key(t, v), Key(t, w)))
  }

  ghost predicate NoGoal(m: DfgModel, t: seq<Activity>, near: set<State>) {
    forall st | st in near :: !IsGoal(m, t, st)
  }

  /** The states passed before the goal are exactly the nearer ones, and the goal is the nearest one. */
  ghost predicate AlignedVia(m: DfgModel, t: seq<Activity>, cost: nat, expanded: nat, near: set<State>, w: Walk) {
    && Nearest(m, t, near) && NoGoal(m, t, near) && |near| + 1 == expanded && !Exceeds(expanded, StateBound(m, t))
    && Shortest(m, t, w) && IsGoal(m, t, End(w)) && Cost(t, w) == cost
    && Nearest(m, t, near + {End(w)})
  }

  ghost predicate TruncatedVia(m: DfgModel, t: seq<Activity>, near: set<State>, w: Walk) {
    && Nearest(m, t, near) && NoGoal(m, t, near) && |near| == StateBound(m, t) < USIZE_MAX
    && Valid(m, t, w) && End(w) !in near
  }

  ghost predicate ExhaustedVia(m: DfgModel, t: seq<Activity>, near: set<State>) {
    && Nearest(m, t, near) && NoGoal(m, t, near) && !Exceeds(|near|, StateBound(m, t))
    && forall w | Valid(m, t, w) :: End(w) in near
  }

  ghost predicate Outcome(m: DfgModel, t: seq<Activity>, r: AlignResult) {
    if m.startActivities == map[] || m.endActivities == map[] then r == Failed(MissingBoundary)
    else
      match r
      case Aligned(cost, expanded) => exists near, w :: AlignedVia(m, t, cost, expanded, near, w)
      case Failed(SearchTruncated) => exists near, w :: TruncatedVia(m, t, near, w)
      case Failed(NoAlignment) => exists near :: ExhaustedVia(m, t, near)
      case Failed(MissingBoundary) => false
  }

  // ---------- the outcome is determined by the model and the trace ----------

  lemma NearestAreNested(m: DfgModel, t: seq<Activity>, a: set<State>, b: set<State>)
    requires Nearest(m, t, a) && Nearest(m, t, b)
    ensures a <= b || b <= a
  {
    if !(a <= b) && !(b <= a) {
      var x :| x in a && x !in b;
      var y :| y in b && y !in a;
      var v :| Shortest(m, t, v) && End(v) == x;
      var w :| Shortest(m, t, w) && End(w) == y;
      BeforeTotal(Key(t, v), Key(t, w));
      assert false;
    }
  }

  lemma AlignedIsUnique(m: DfgModel, t: seq<Activity>, c: nat, n: nat, a: set<State>, v: Walk,
                        d: nat, k: nat, b: set<State>, w: Walk)
    requires AlignedVia(m, t, c, n, a, v) && AlignedVia(m, t, d, k, b, w)
    ensures c == d && n == k
  {
    NearestAreNested(m, t, a + {End(v)}, b);
    NearestAreNested(m, t, a, b + {End(w)});
    assert End(v) in a + {End(v)} && End(w) in b + {End(w)};
    assert a == b;
    NearestAreNested(m, t, a + {End(v)}, b + {End(w)});
    assert End(v) == End(w);
  }

  lemma AlignedIsNotTruncated(m: DfgModel, t: seq<Activity>, c: nat, n: nat, a: set<State>, v: Walk,
                              b: set<State>, w: Walk)
    requires AlignedVia(m, t, c, n, a, v)
    ensures !TruncatedVia(m, t, b, w)
  {
    if TruncatedVia(m, t, b, w) {
      NearestAreNested(m, t, a + {End(v)}, b);
      assert End(v) in a + {End(v)};
      SubsetOfSameSize(b, a + {End(v)});
    }
  }

  lemma AlignedIsNotExhausted(m: DfgModel, t: seq<Activity>, c: nat, n: nat, a: set<State>, v: Walk, b: set<State>)
    requires AlignedVia(m, t, c, n, a, v)
    ensures !ExhaustedVia(m, t, b)
  {
    assert Valid(m, t, v) && IsGoal(m, t, End(v));
  }

  lemma TruncatedIsNotExhausted(m: DfgModel, t: seq<Activity>, a: set<State>, w: Walk, b: set<State>)
    requires TruncatedVia(m, t, a, w)
    ensures !ExhaustedVia(m, t, b)
  {
    if ExhaustedVia(m, t, b) {
      forall st | st in a ensures st in b {
        var v :| Shortest(m, t, v) && End(v) == st;
      }
      SubsetOfSameSize(a, b);
    }
  }

  /** Cost, number of expansions and error are all functions of the model and the trace. */
  lemma OutcomeIsUnique(m: DfgModel, t: seq<Activity>, r: AlignResult, q: AlignResult)
    requires Outcome(m, t, r) && Outcome(m, t, q)
    ensures r == q
  {
    if r == q || m.startActivities == map[] || m.endActivities == map[] {
    } else if r.Aligned? && q.Aligned? {
      var a, v :| AlignedVia(m, t, r.cost, r.expanded, a, v);
      var b, w :| AlignedVia(m, t, q.cost, q.expanded, b, w);
      AlignedIsUnique(m, t, r.cost, r.expanded, a, v, q.cost, q.expanded, b, w);
    } else if r.Aligned? {
      AlignedExcludesFailure(m, t, r, q.error);
    } else if q.Aligned? {
      AlignedExcludesFailure(m, t, q, r.error);
    } else {
      TruncatedExcludesNoAlignment(m, t);
    }
  }

  lemma AlignedExcludesFailure(m: DfgModel, t: seq<Activity>, r: AlignResult, e: AlignError)
    requires Outcome(m, t, r) && r.Aligned?
    ensures !Outcome(m, t, Failed(e))
  {
    var a, v :| AlignedVia(m, t, r.cost, r.expanded, a, v);
    forall b, w ensures !TruncatedVia(m, t, b, w) {
      AlignedIsNotTruncated(m, t, r.cost, r.expanded, a, v, b, w);
    }
    forall b ensures !ExhaustedVia(m, t, b) {
      AlignedIsNotExhausted(m, t, r.cost, r.expanded, a, v, b);
    }
  }

  lemma TruncatedExcludesNoAlignment(m: DfgModel, t: seq<Activity>)
    ensures !(exists a, w, b :: TruncatedVia(m, t, a, w) && ExhaustedVia(m, t, b))
  {
    forall a, w, b | TruncatedVia(m, t, a, w) ensures !ExhaustedVia(m, t, b) {
      TruncatedIsNotExhausted(m, t, a, w, b);
    }
  }
}
