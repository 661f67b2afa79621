/** The product of a trace and a directly-follows model, walked by the alignment search. */
module AlignmentGraph {
  import opened EditDistance
  import opened TextOrder

  datatype DfgEdge = DfgEdge(source: Activity, target: Activity, objectType: string, frequency: nat)

  datatype DfgModel = DfgModel(
    activities: seq<Activity>,
    startActivities: map<Activity, nat>,
    endActivities: map<Activity, nat>,
    edges: seq<DfgEdge>)

  predicate HasEdge(m: DfgModel, a: Activity, b: Activity) {
    exists e | e in m.edges :: e.source == a && e.target == b
  }

  predicate Follows(m: DfgModel, run: seq<Activity>) {
    forall i | 0 <= i < |run| - 1 :: HasEdge(m, run[i], run[i + 1])
  }

  /** An accepting run of the model: a start activity, following edges, and last an end activity. */
  predicate Accepts(m: DfgModel, run: seq<Activity>) {
    run != [] && run[0] in m.startActivities && Follows(m, run) && Last(run) in m.endActivities
  }

  lemma {:induction false} LongerThanAll(v: set<Activity>) returns (n: nat)
    ensures forall a | a in v :: |a| < n
    decreases v
  {
    if v == {} {
      n := 0;
    } else {
      var a :| a in v;
      n := LongerThanAll(v - {a});
      n := if |a| < n then n else |a| + 1;
    }
  }

  /** There are always more activities. */
  lemma ForeignActivity(v: set<Activity>) returns (a: Activity)
    ensures a !in v
  {
    var n := LongerThanAll(v);
    a := seq(n, _ => 'x');
  }

  datatype State = State(index: nat, activity: Activity)

  /** A heap entry; the heap orders entries by cost, then index, then activity. */
  datatype Entry = Entry(cost: nat, state: State)

  /**
   * One alignment, move by move. `Skip` starts the run without reading an event and is free;
   * `Begin` starts it against the first event. The other three are the moves of the main loop.
   */
  datatype Walk =
    | Skip(start: Activity)
    | Begin(start: Activity)
    | LogMove(prev: Walk)
    | ModelMove(prev: Walk, target: Activity)
    | SyncMove(prev: Walk, target: Activity)

  function End(w: Walk): State {
    match w
    case Skip(s) => State(0, s)
    case Begin(s) => State(1, s)
    case LogMove(p) => State(End(p).index + 1, End(p).activity)
    case ModelMove(p, b) => State(End(p).index, b)
    case SyncMove(p, b) => State(End(p).index + 1, b)
  }

  predicate Valid(m: DfgModel, t: seq<Activity>, w: Walk) {
    match w
    case Skip(s) => s in m.startActivities
    case Begin(s) => s in m.startActivities && t != []
    case LogMove(p) => Valid(m, t, p) && End(p).index < |t|
    case ModelMove(p, b) => Valid(m, t, p) && HasEdge(m, End(p).activity, b)
    case SyncMove(p, b) => Valid(m, t, p) && HasEdge(m, End(p).activity, b) && End(p).index < |t|
  }

  function PairCost(t: seq<Activity>, i: nat, b: Activity): nat {
    if i < |t| then Mismatch(t[i], b) else 0
  }

  function Cost(t: seq<Activity>, w: Walk): nat {
    match w
    case Skip(_) => 0
    case Begin(s) => PairCost(t, 0, s)
    case LogMove(p) => Cost(t, p) + 1
    case ModelMove(p, _) => Cost(t, p) + 1
    case SyncMove(p, b) => Cost(t, p) + PairCost(t, End(p).index, b)
  }

  predicate IsGoal(m: DfgModel, t: seq<Activity>, st: State) {
    st.index == |t| && st.activity in m.endActivities
  }

  function Key(t: seq<Activity>, w: Walk): Entry {
    Entry(Cost(t, w), End(w))
  }

  // ---------- the heap order ----------

  predicate Before(e: Entry, f: Entry) {
    e.cost < f.cost
    || (e.cost == f.cost && e.state.index < f.state.index)
    || (e.cost == f.cost && e.state.index == f.state.index && TextLess(e.state.activity, f.state.activity))
  }

  /** Costs first, then positions, then activities as texts: up to some place they agree, where one ends or is smaller. */
  lemma BeforeIff(e: Entry, f: Entry)
    ensures Before(e, f) <==>
            if e.cost != f.cost then e.cost < f.cost
            else if e.state.index != f.state.index then e.state.index < f.state.index
            else
              var a, b := e.state.activity, f.state.activity;
              exists k :: 0 <= k <= |a| && k < |b| && a[..k] == b[..k] && (k == |a| || a[k] < b[k])
  {
    TextLessIff(e.state.activity, f.state.activity);
  }

  lemma BeforeTotal(e: Entry, f: Entry)
    ensures e == f || Before(e, f) || Before(f, e)
    ensures !(Before(e, f) && Before(f, e))
    ensures !Before(e, e)
  {
    TextLessTotal(e.state.activity, f.state.activity);
    TextLessTotal(e.state.activity, e.state.activity);
  }

  lemma BeforeTransitive(e: Entry, f: Entry, g: Entry)
    requires Before(e, f) && Before(f, g)
    ensures Before(e, g)
  {
    if TextLess(e.state.activity, f.state.activity) && TextLess(f.state.activity, g.state.activity) {
      TextLessTransitive(e.state.activity, f.state.activity, g.state.activity);
    }
  }

  /** Every move strictly advances in the heap order, even a synchronous move that costs nothing. */
  lemma MovesAdvance(m: DfgModel, t: seq<Activity>, w: Walk)
    requires Valid(m, t, w) && !w.Skip? && !w.Begin?
    ensures Before(Key(t, w.prev), Key(t, w))
  {
  }
}
