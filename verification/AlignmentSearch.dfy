/** The lazy-deletion search for a cheapest alignment, and the invariants that make it exact. */
module AlignmentSearch {
  import opened Basics
  import opened EditDistance
  import opened AlignmentGraph
  import opened AlignmentReach
  import opened AlignmentOutcome

  type Heap = multiset<Entry>
  type Distances = map<State, nat>

  // ---------- the priority queue ----------

  ghost predicate IsLeast(heap: Heap, e: Entry) {
    e in heap && forall f | f in heap :: f == e || Before(e, f)
  }

  lemma {:induction false} LeastExists(heap: Heap)
    requires heap != multiset{}
    ensures exists e :: IsLeast(heap, e)
    decreases |heap|
  {
    hide Before;
    var e :| e in heap;
    var rest := heap - multiset{e};
    if rest == multiset{} {
      assert heap == multiset{e};
      assert IsLeast(heap, e);
    } else {
      LeastExists(rest);
      var f :| IsLeast(rest, f);
      BeforeTotal(e, f);
      forall g | g in heap && Before(e, f) ensures g == e || Before(e, g) {
        if g != e && g != f {
          assert g in rest;
          BeforeTransitive(e, f, g);
        }
      }
      assert IsLeast(heap, if Before(e, f) then e else f);
    }
  }

  method PopLeast(heap: Heap) returns (e: Entry, rest: Heap)
    requires heap != multiset{}
    ensures IsLeast(heap, e)
    ensures rest == heap - multiset{e}
  {
    LeastExists(heap);
    e :| e in heap && forall f | f in heap :: f == e || Before(e, f);
    rest := heap - multiset{e};
  }

  /** `st` is known to be reachable at no more than `cost`. */
  predicate Known(d: Distances, st: State, cost: nat) {
    st in d && d[st] <= cost
  }

  method Relax(heap: Heap, d: Distances, cost: nat, index: nat, activity: Activity) returns (heap': Heap, d': Distances)
    ensures
      var st := State(index, activity);
      if Known(d, st, cost) then heap' == heap && d' == d
      else heap' == heap + multiset{Entry(cost, st)} && d' == d[st := cost]
  {
    var key := State(index, activity);
    heap', d' := heap, d;
    if key !in d || cost < d[key] {
      d' := d'[key := cost];
      heap' := heap' + multiset{Entry(cost, key)};
    }
  }

  // ---------- the successors of an activity ----------

  function Targets(edges: seq<DfgEdge>, a: Activity): seq<Activity> {
    if edges == [] then []
    else
      var init, e := edges[..|edges| - 1], edges[|edges| - 1];
      if e.source == a then Targets(init, a) + [e.target] else Targets(init, a)
  }

  lemma {:induction false} TargetsAreEdges(edges: seq<DfgEdge>, a: Activity, b: Activity)
    ensures b in Targets(edges, a) <==> exists e | e in edges :: e.source == a && e.target == b
  {
    if edges != [] {
      var init, e := edges[..|edges| - 1], edges[|edges| - 1];
      assert edges == init + [e];
      TargetsAreEdges(init, a, b);
    }
  }

  ghost predicate Lists(adjacency: map<Activity, seq<Activity>>, edges: seq<DfgEdge>) {
    forall a :: (if a in adjacency then adjacency[a] else []) == Targets(edges, a)
  }

  method Adjacency(edges: seq<DfgEdge>) returns (adjacency: map<Activity, seq<Activity>>)
    ensures Lists(adjacency, edges)
  {
    adjacency := map[];
    for i := 0 to |edges|
      invariant Lists(adjacency, edges[..i])
    {
      var e := edges[i];
      var values := if e.source in adjacency then adjacency[e.source] else [];
      assert edges[..i + 1][..i] == edges[..i];
      adjacency := adjacency[e.source := values + [e.target]];
    }
    assert edges[..|edges|] == edges;
  }

  // ---------- invariants ----------

  /** Every recorded distance is the cost of some walk. */
  ghost predicate Sound(m: DfgModel, t: seq<Activity>, d: Distances) {
    forall st | st in d :: exists w :: Valid(m, t, w) && End(w) == st && Cost(t, w) == d[st]
  }

  /** The heap holds stale entries and, for each state not yet settled, its live entry exactly once. */
  ghost predicate HeapFits(heap: Heap, d: Distances, settled: set<State>) {
    && (forall e | e in heap :: Known(d, e.state, e.cost))
    && (forall st | st in d :: heap[Entry(d[st], st)] == if st in settled then 0 else 1)
  }

  ghost predicate SettledFirst(d: Distances, settled: set<State>) {
    && settled <= d.Keys
    && forall s, u | s in settled && u in d && u !in settled :: Before(Entry(d[s], s), Entry(d[u], u))
  }

  ghost predicate Core(m: DfgModel, t: seq<Activity>, heap: Heap, d: Distances, settled: set<State>) {
    Sound(m, t, d) && HeapFits(heap, d, settled) && SettledFirst(d, settled)
  }

  ghost predicate StartKnown(t: seq<Activity>, d: Distances, s: Activity) {
    Known(d, State(0, s), 0) && (t != [] ==> Known(d, State(1, s), Mismatch(t[0], s)))
  }

  ghost predicate StartsKnown(m: DfgModel, t: seq<Activity>, d: Distances) {
    forall s | s in m.startActivities :: StartKnown(t, d, s)
  }

  ghost predicate LogKnown(t: seq<Activity>, d: Distances, st: State, cost: nat) {
    st.index < |t| ==> Known(d, State(st.index + 1, st.activity), cost + 1)
  }

  ghost predicate TargetKnown(t: seq<Activity>, d: Distances, st: State, cost: nat, b: Activity) {
    && Known(d, State(st.index, b), cost + 1)
    && (st.index < |t| ==> Known(d, State(st.index + 1, b), cost + Mismatch(t[st.index], b)))
  }

  /** All moves out of a settled state have been relaxed. */
  ghost predicate Expanded(m: DfgModel, t: seq<Activity>, d: Distances, st: State) {
    && st in d && LogKnown(t, d, st, d[st])
    && forall b | HasEdge(m, st.activity, b) :: TargetKnown(t, d, st, d[st], b)
  }

  ghost predicate AllExpanded(m: DfgModel, t: seq<Activity>, d: Distances, settled: set<State>) {
    forall st | st in settled :: Expanded(m, t, d, st)
  }

  /** Distances only shrink, and those of settled states stay. */
  ghost predicate Improves(d: Distances, d': Distances, settled: set<State>) {
    && (forall st | st in d :: st in d' && d'[st] <= d[st])
    && (forall st | st in settled && st in d :: st in d' && d'[st] == d[st])
  }

  /** Recording a better cost for an unsettled state keeps every live entry in the heap exactly once. */
  lemma PushKeepsHeap(heap: Heap, d: Distances, settled: set<State>, e: Entry)
    requires HeapFits(heap, d, settled) && !Known(d, e.state, e.cost) && e.state !in settled
    ensures HeapFits(heap + multiset{e}, d[e.state := e.cost], settled)
  {
    assert e !in heap;
  }

  lemma PushKeepsOrder(d: Distances, settled: set<State>, e: Entry)
    requires SettledFirst(d, settled) && !Known(d, e.state, e.cost)
    requires forall s | s in settled :: Before(Entry(d[s], s), e)
    ensures e.state !in settled && SettledFirst(d[e.state := e.cost], settled)
    ensures Improves(d, d[e.state := e.cost], settled)
  {
  }

  /** Relaxing along a walk that lies beyond every settled state keeps the invariant. */
  lemma RelaxKeeps(m: DfgModel, t: seq<Activity>, heap: Heap, d: Distances, settled: set<State>, w: Walk,
                   heap': Heap, d': Distances)
    requires Core(m, t, heap, d, settled) && Valid(m, t, w)
    requires forall s | s in settled :: Before(Entry(d[s], s), Key(t, w))
    requires if Known(d, End(w), Cost(t, w)) then heap' == heap && d' == d
             else heap' == heap + multiset{Key(t, w)} && d' == d[End(w) := Cost(t, w)]
    ensures Core(m, t, heap', d', settled)
    ensures Improves(d, d', settled) && Known(d', End(w), Cost(t, w))
  {
    hide HeapFits, SettledFirst, Before;
    if !Known(d, End(w), Cost(t, w)) {
      PushKeepsOrder(d, settled, Key(t, w));
      PushKeepsHeap(heap, d, settled, Key(t, w));
    }
  }

  /** The cut: every walk ends in a settled state or has an unsettled known state no later in the heap order. */
  lemma {:induction false} Cut(m: DfgModel, t: seq<Activity>, d: Distances, settled: set<State>, w: Walk)
    requires StartsKnown(m, t, d) && AllExpanded(m, t, d, settled) && Valid(m, t, w)
    ensures (End(w) in settled && Known(d, End(w), Cost(t, w)))
            || exists u :: u in d && u !in settled && !Before(Key(t, w), Entry(d[u], u))
  {
    if w.Skip? || w.Begin? {
      KnownCut(t, d, settled, w);
    } else {
      Cut(m, t, d, settled, w.prev);
      if End(w.prev) in settled && Known(d, End(w.prev), Cost(t, w.prev)) {
        assert Expanded(m, t, d, End(w.prev));
        KnownCut(t, d, settled, w);
      } else {
        var u :| u in d && u !in settled && !Before(Key(t, w.prev), Entry(d[u], u));
        MovesAdvance(m, t, w);
        if Before(Key(t, w), Entry(d[u], u)) {
          BeforeTransitive(Key(t, w.prev), Key(t, w), Entry(d[u], u));
        }
      }
    }
  }

  lemma KnownCut(t: seq<Activity>, d: Distances, settled: set<State>, w: Walk)
    requires Known(d, End(w), Cost(t, w))
    ensures (End(w) in settled && Known(d, End(w), Cost(t, w)))
            || exists u :: u in d && u !in settled && !Before(Key(t, w), Entry(d[u], u))
  {
    BeforeTotal(Entry(d[End(w)], End(w)), Key(t, w));
  }

  /** Settled distances are least distances. */
  ghost predicate Exact(m: DfgModel, t: seq<Activity>, d: Distances, settled: set<State>) {
    forall w | Valid(m, t, w) && End(w) in settled :: End(w) in d && d[End(w)] <= Cost(t, w)
  }

  lemma SettledAreNearest(m: DfgModel, t: seq<Activity>, heap: Heap, d: Distances, settled: set<State>)
    requires Core(m, t, heap, d, settled) && StartsKnown(m, t, d) && AllExpanded(m, t, d, settled)
    requires Exact(m, t, d, settled)
    ensures Nearest(m, t, settled)
  {
    forall st | st in settled ensures exists w :: Shortest(m, t, w) && End(w) == st {
      var w :| Valid(m, t, w) && End(w) == st && Cost(t, w) == d[st];
      assert Shortest(m, t, w);
    }
    forall v, w | Shortest(m, t, v) && End(v) in settled && Valid(m, t, w) && End(w) !in settled
      ensures Before(Key(t, v), Key(t, w))
    {
      Cut(m, t, d, settled, w);
      var u :| u in d && u !in settled && !Before(Key(t, w), Entry(d[u], u));
      var x :| Valid(m, t, x) && End(x) == End(v) && Cost(t, x) == d[End(v)];
      assert Key(t, v) == Entry(d[End(v)], End(v));
      BeforeTotal(Entry(d[u], u), Key(t, w));
      if Before(Entry(d[u], u), Key(t, w)) {
        BeforeTransitive(Key(t, v), Entry(d[u], u), Key(t, w));
      }
    }
  }

  lemma NothingUnsettledIsNearer(m: DfgModel, t: seq<Activity>, heap: Heap, d: Distances, settled: set<State>,
                                 e: Entry, w: Walk)
    requires HeapFits(heap, d, settled) && StartsKnown(m, t, d) && AllExpanded(m, t, d, settled)
    requires IsLeast(heap, e) && Valid(m, t, w) && End(w) !in settled
    ensures !Before(Key(t, w), e)
  {
    Cut(m, t, d, settled, w);
    var u :| u in d && u !in settled && !Before(Key(t, w), Entry(d[u], u));
    assert Entry(d[u], u) in heap;
    if Before(Key(t, w), e) && Entry(d[u], u) != e {
      BeforeTransitive(Key(t, w), e, Entry(d[u], u));
    }
  }

  /** The least entry, if live, carries the exact distance of its state. */
  lemma LiveEntryIsExact(m: DfgModel, t: seq<Activity>, heap: Heap, d: Distances, settled: set<State>, e: Entry)
    returns (x: Walk)
    requires Core(m, t, heap, d, settled) && StartsKnown(m, t, d) && AllExpanded(m, t, d, settled)
    requires Exact(m, t, d, settled) && IsLeast(heap, e) && d[e.state] == e.cost
    ensures e.state !in settled
    ensures Shortest(m, t, x) && Key(t, x) == e
    ensures Exact(m, t, d, settled + {e.state})
  {
    x :| Valid(m, t, x) && End(x) == e.state && Cost(t, x) == d[e.state];
    forall w | Valid(m, t, w) && End(w) == e.state ensures e.cost <= Cost(t, w) {
      NothingUnsettledIsNearer(m, t, heap, d, settled, e, w);
    }
  }

  /** The state of the least live entry is the next nearest one. */
  lemma LiveEntryIsNext(m: DfgModel, t: seq<Activity>, heap: Heap, d: Distances, settled: set<State>, e: Entry, x: Walk)
    requires HeapFits(heap, d, settled) && StartsKnown(m, t, d) && AllExpanded(m, t, d, settled)
    requires Nearest(m, t, settled) && IsLeast(heap, e) && Shortest(m, t, x) && Key(t, x) == e
    ensures Nearest(m, t, settled + {e.state})
  {
    forall v, w | Shortest(m, t, v) && End(v) in settled + {e.state} && Valid(m, t, w) && End(w) !in settled + {e.state}
      ensures Before(Key(t, v), Key(t, w))
    {
      if End(v) !in settled {
        NothingUnsettledIsNearer(m, t, heap, d, settled, e, w);
        assert Key(t, v) == e;
        BeforeTotal(Key(t, w), e);
      }
    }
  }

  lemma SettleKeepsCore(m: DfgModel, t: seq<Activity>, heap: Heap, d: Distances, settled: set<State>, e: Entry)
    requires Core(m, t, heap, d, settled) && IsLeast(heap, e) && d[e.state] == e.cost
    ensures Core(m, t, heap - multiset{e}, d, settled + {e.state})
    ensures e.state in d && forall s | s in settled && s != e.state :: s in d && Before(Entry(d[s], s), e)
  {
    assert Entry(d[e.state], e.state) == e;
  }

  lemma StaleEntryKeepsCore(m: DfgModel, t: seq<Activity>, heap: Heap, d: Distances, settled: set<State>, e: Entry)
    requires Core(m, t, heap, d, settled) && e in heap && d[e.state] != e.cost
    ensures Core(m, t, heap - multiset{e}, d, settled)
  {
  }

  // ---------- the search ----------

  method RelaxStart(m: DfgModel, t: seq<Activity>, heap: Heap, d: Distances, s: Activity)
    returns (heap': Heap, d': Distances)
    requires Core(m, t, heap, d, {}) && s in m.startActivities
    ensures Core(m, t, heap', d', {}) && Improves(d, d', {}) && StartKnown(t, d', s)
  {
    heap', d' := Relax(heap, d, 0, 0, s);
    RelaxKeeps(m, t, heap, d, {}, Skip(s), heap', d');
    if t != [] {
      ghost var heap1, d1 := heap', d';
      heap', d' := Relax(heap', d', if t[0] != s then 1 else 0, 1, s);
      RelaxKeeps(m, t, heap1, d1, {}, Begin(s), heap', d');
    }
  }

  method RelaxStarts(m: DfgModel, t: seq<Activity>) returns (heap: Heap, d: Distances)
    ensures Searching(m, t, heap, d, {})
  {
    heap, d := multiset{}, map[];
    var pending := m.startActivities.Keys;
    while pending != {}
      invariant pending <= m.startActivities.Keys
      invariant Core(m, t, heap, d, {})
      invariant forall s | s in m.startActivities && s !in pending :: StartKnown(t, d, s)
    {
      var s :| s in pending;
      heap, d := RelaxStart(m, t, heap, d, s);
      pending := pending - {s};
    }
  }

  /** The state being expanded: settled last, by a shortest walk. */
  ghost predicate SettledLast(m: DfgModel, t: seq<Activity>, d: Distances, settled: set<State>, e: Entry, w: Walk) {
    && e.state in settled && e.state in d && d[e.state] == e.cost
    && (forall s | s in settled && s != e.state :: s in d && Before(Entry(d[s], s), e))
    && Valid(m, t, w) && Key(t, w) == e
  }

  lemma BeyondSettled(m: DfgModel, t: seq<Activity>, d: Distances, settled: set<State>, e: Entry, w: Walk, v: Walk)
    requires SettledLast(m, t, d, settled, e, w)
    requires Valid(m, t, v) && !v.Skip? && !v.Begin? && v.prev == w
    ensures forall s | s in settled :: s in d && Before(Entry(d[s], s), Key(t, v))
  {
    MovesAdvance(m, t, v);
    forall s | s in settled ensures Before(Entry(d[s], s), Key(t, v)) {
      if s != e.state {
        BeforeTransitive(Entry(d[s], s), e, Key(t, v));
      }
    }
  }

  /** Relaxes one move out of the state being expanded. */
  method RelaxMove(m: DfgModel, t: seq<Activity>, heap: Heap, d: Distances, cost: nat, index: nat, activity: Activity,
                   ghost settled: set<State>, ghost e: Entry, ghost w: Walk, ghost v: Walk)
    returns (heap': Heap, d': Distances)
    requires Core(m, t, heap, d, settled) && SettledLast(m, t, d, settled, e, w)
    requires Valid(m, t, v) && !v.Skip? && !v.Begin? && v.prev == w
    requires Key(t, v) == Entry(cost, State(index, activity))
    ensures Core(m, t, heap', d', settled) && SettledLast(m, t, d', settled, e, w)
    ensures Improves(d, d', settled) && Known(d', State(index, activity), cost)
  {
    heap', d' := Relax(heap, d, cost, index, activity);
    BeyondSettled(m, t, d, settled, e, w, v);
    RelaxKeeps(m, t, heap, d, settled, v, heap', d');
  }

  /** Relaxes the moves along one edge out of the state being expanded. */
  method RelaxTarget(m: DfgModel, t: seq<Activity>, heap: Heap, d: Distances, e: Entry, target: Activity,
                     ghost settled: set<State>, ghost w: Walk)
    returns (heap': Heap, d': Distances)
    requires Core(m, t, heap, d, settled) && SettledLast(m, t, d, settled, e, w)
    requires HasEdge(m, e.state.activity, target)
    ensures Core(m, t, heap', d', settled) && SettledLast(m, t, d', settled, e, w)
    ensures Improves(d, d', settled) && TargetKnown(t, d', e.state, e.cost, target)
  {
    hide Core;
    var i := e.state.index;
    heap', d' := RelaxMove(m, t, heap, d, e.cost + 1, i, target, settled, e, w, ModelMove(w, target));
    if i < |t| {
      heap', d' := RelaxMove(m, t, heap', d', e.cost + (if t[i] != target then 1 else 0), i + 1, target,
                             settled, e, w, SyncMove(w, target));
    }
  }

  /** Reads the next event without moving in the model. */
  method RelaxLog(m: DfgModel, t: seq<Activity>, heap: Heap, d: Distances, e: Entry, ghost settled: set<State>, ghost w: Walk)
    returns (heap': Heap, d': Distances)
    requires Core(m, t, heap, d, settled) && SettledLast(m, t, d, settled, e, w)
    ensures Core(m, t, heap', d', settled) && SettledLast(m, t, d', settled, e, w)
    ensures Improves(d, d', settled) && LogKnown(t, d', e.state, e.cost)
  {
    hide Core, Improves;
    heap', d' := heap, d;
    ImprovesReflexive(d, settled);
    if e.state.index < |t| {
      heap', d' :=
        RelaxMove(m, t, heap', d', e.cost + 1, e.state.index + 1, e.state.activity, settled, e, w, LogMove(w));
    }
  }

  /** Relaxes every move out of the state that was just settled. */
  method Expand(m: DfgModel, t: seq<Activity>, adjacency: map<Activity, seq<Activity>>,
                heap: Heap, d: Distances, e: Entry, ghost settled: set<State>, ghost w: Walk)
    returns (heap': Heap, d': Distances)
    requires Lists(adjacency, m.edges)
    requires Core(m, t, heap, d, settled) && SettledLast(m, t, d, settled, e, w)
    ensures Core(m, t, heap', d', settled) && Improves(d, d', settled)
    ensures Expanded(m, t, d', e.state)
  {
    hide Core, Improves, SettledLast, LogKnown, TargetKnown, Expanded, HasEdge;
    heap', d' := RelaxLog(m, t, heap, d, e, settled, w);
    var a := e.state.activity;
    var targets := if a in adjacency then adjacency[a] else [];
    for k := 0 to |targets|
      invariant Core(m, t, heap', d', settled) && SettledLast(m, t, d', settled, e, w)
      invariant Improves(d, d', settled) && LogKnown(t, d', e.state, e.cost)
      invariant forall j | 0 <= j < k :: TargetKnown(t, d', e.state, e.cost, targets[j])
    {
      ghost var d0 := d';
      ListedIsEdge(m, adjacency, a, targets[k]);
      heap', d' := RelaxTarget(m, t, heap', d', e, targets[k], settled, w);
      MovesStayKnown(t, d0, d', settled, e.state, e.cost);
      ImprovesTransitive(d, d0, d', settled);
    }
    forall b | HasEdge(m, a, b) ensures b in targets {
      ListedIsEdge(m, adjacency, a, b);
    }
    AllTargetsExpanded(m, t, targets, d', settled, e, w);
  }

  lemma ListedIsEdge(m: DfgModel, adjacency: map<Activity, seq<Activity>>, a: Activity, b: Activity)
    requires Lists(adjacency, m.edges)
    ensures (a in adjacency && b in adjacency[a]) <==> HasEdge(m, a, b)
  {
    TargetsAreEdges(m.edges, a, b);
  }

  lemma AllTargetsExpanded(m: DfgModel, t: seq<Activity>, targets: seq<Activity>, d: Distances,
                           settled: set<State>, e: Entry, w: Walk)
    requires SettledLast(m, t, d, settled, e, w) && LogKnown(t, d, e.state, e.cost)
    requires forall b | HasEdge(m, e.state.activity, b) :: b in targets
    requires forall j | 0 <= j < |targets| :: TargetKnown(t, d, e.state, e.cost, targets[j])
    ensures Expanded(m, t, d, e.state)
  {
    hide HasEdge, LogKnown, TargetKnown, Before;
    forall b | HasEdge(m, e.state.activity, b) ensures TargetKnown(t, d, e.state, e.cost, b) {
      var j :| 0 <= j < |targets| && targets[j] == b;
      assert TargetKnown(t, d, e.state, e.cost, targets[j]);
    }
  }

  lemma MovesStayKnown(t: seq<Activity>, d: Distances, d': Distances, settled: set<State>, st: State, cost: nat)
    requires Improves(d, d', settled)
    ensures LogKnown(t, d, st, cost) ==> LogKnown(t, d', st, cost)
    ensures forall b | TargetKnown(t, d, st, cost, b) :: TargetKnown(t, d', st, cost, b)
  {
  }

  lemma ImprovesReflexive(d: Distances, settled: set<State>)
    ensures Improves(d, d, settled)
  {
  }

  lemma ImprovesTransitive(d: Distances, d': Distances, d'': Distances, settled: set<State>)
    requires Improves(d, d', settled) && Improves(d', d'', settled)
    ensures Improves(d, d'', settled)
  {
  }

  /** Everything known at the top of the main loop. */
  ghost predicate Searching(m: DfgModel, t: seq<Activity>, heap: Heap, d: Distances, settled: set<State>) {
    && Core(m, t, heap, d, settled) && StartsKnown(m, t, d) && AllExpanded(m, t, d, settled)
    && Exact(m, t, d, settled) && NoGoal(m, t, settled)
  }

  lemma ImprovesKeeps(m: DfgModel, t: seq<Activity>, d: Distances, d': Distances, settled: set<State>, st: State)
    requires Improves(d, d', settled) && StartsKnown(m, t, d) && AllExpanded(m, t, d, settled - {st})
    requires Exact(m, t, d, settled) && Expanded(m, t, d', st)
    ensures StartsKnown(m, t, d') && AllExpanded(m, t, d', settled) && Exact(m, t, d', settled)
  {
    forall s | s in settled ensures Expanded(m, t, d', s) {
      if s != st {
        assert Expanded(m, t, d, s);
        MovesStayKnown(t, d, d', settled, s, d[s]);
      }
    }
  }

  /** Settles the state of a popped live entry and expands it. */
  method Settle(m: DfgModel, t: seq<Activity>, adjacency: map<Activity, seq<Activity>>, ghost heap: Heap,
                rest: Heap, d: Distances, e: Entry, ghost settled: set<State>, ghost w: Walk)
    returns (heap': Heap, d': Distances)
    requires Lists(adjacency, m.edges)
    requires Searching(m, t, heap, d, settled) && IsLeast(heap, e) && d[e.state] == e.cost
    requires rest == heap - multiset{e} && !IsGoal(m, t, e.state)
    requires e.state !in settled && Shortest(m, t, w) && Key(t, w) == e && Exact(m, t, d, settled + {e.state})
    ensures Searching(m, t, heap', d', settled + {e.state})
  {
    hide Core, Exact, StartsKnown, AllExpanded, Improves;
    SettleKeepsCore(m, t, heap, d, settled, e);
    ghost var settled' := settled + {e.state};
    assert settled' - {e.state} == settled;
    heap', d' := Expand(m, t, adjacency, rest, d, e, settled', w);
    ImprovesKeeps(m, t, d, d', settled', e.state);
  }

  lemma StaleEntryKeepsSearching(m: DfgModel, t: seq<Activity>, heap: Heap, d: Distances, settled: set<State>, e: Entry)
    requires Searching(m, t, heap, d, settled) && IsLeast(heap, e)
    ensures e.state in d
    ensures d[e.state] != e.cost ==> Searching(m, t, heap - multiset{e}, d, settled)
  {
    if d[e.state] != e.cost {
      StaleEntryKeepsCore(m, t, heap, d, settled, e);
    }
  }

  lemma LiveEntry(m: DfgModel, t: seq<Activity>, heap: Heap, d: Distances, settled: set<State>, e: Entry, expanded: nat)
    returns (w: Walk)
    requires Searching(m, t, heap, d, settled) && IsLeast(heap, e) && e.state in d && d[e.state] == e.cost
    requires m.startActivities != map[] && m.endActivities != map[]
    requires |settled| + 1 == expanded && !Exceeds(|settled|, StateBound(m, t))
    ensures e.state !in settled && Shortest(m, t, w) && Key(t, w) == e && Exact(m, t, d, settled + {e.state})
    ensures Exceeds(expanded, StateBound(m, t)) ==> Outcome(m, t, Failed(SearchTruncated))
    ensures !Exceeds(expanded, StateBound(m, t)) && IsGoal(m, t, e.state) ==> Outcome(m, t, Aligned(e.cost, expanded))
  {
    w := LiveEntryIsExact(m, t, heap, d, settled, e);
    SettledAreNearest(m, t, heap, d, settled);
    LiveEntryIsNext(m, t, heap, d, settled, e, w);
    if Exceeds(expanded, StateBound(m, t)) {
      assert TruncatedVia(m, t, settled, w);
    } else if IsGoal(m, t, e.state) {
      assert AlignedVia(m, t, e.cost, expanded, settled, w);
    }
  }

  lemma EmptyHeapMeansExhausted(m: DfgModel, t: seq<Activity>, d: Distances, settled: set<State>)
    requires Searching(m, t, multiset{}, d, settled) && !Exceeds(|settled|, StateBound(m, t))
    requires m.startActivities != map[] && m.endActivities != map[]
    ensures Outcome(m, t, Failed(NoAlignment))
  {
    SettledAreNearest(m, t, multiset{}, d, settled);
    forall w | Valid(m, t, w) ensures End(w) in settled {
      Cut(m, t, d, settled, w);
    }
    assert ExhaustedVia(m, t, settled);
  }

  /** Only states of the trace are ever settled, so the ones that are not yet bound the search. */
  lemma SettledAreStates(m: DfgModel, t: seq<Activity>, heap: Heap, d: Distances, settled: set<State>)
    requires Searching(m, t, heap, d, settled)
    ensures settled <= States(m, t) && |settled| <= |States(m, t)|
  {
    SettledAreNearest(m, t, heap, d, settled);
    forall st | st in settled ensures st in States(m, t) {
      var w :| Shortest(m, t, w) && End(w) == st;
      WalkEndsInStates(m, t, w);
    }
    SubsetIsSmaller(settled, States(m, t));
  }

  method AlignDfg(m: DfgModel, t: seq<Activity>) returns (r: AlignResult)
    ensures Outcome(m, t, r)
  {
    hide Searching, States, StateBound;
    if m.startActivities == map[] || m.endActivities == map[] {
      return Failed(MissingBoundary);
    }
    var adjacency := Adjacency(m.edges);
    var heap, d := RelaxStarts(m, t);
    var stateBound := StateBound(m, t);
    var expanded := 0;
    ghost var settled: set<State> := {};
    while heap != multiset{}
      invariant Searching(m, t, heap, d, settled)
      invariant |settled| == expanded && !Exceeds(expanded, stateBound)
      decreases |States(m, t)| - |settled|, |heap|
    {
      var e, rest := PopLeast(heap);
      StaleEntryKeepsSearching(m, t, heap, d, settled, e);
      if d[e.state] != e.cost {
        heap := rest;
        continue;
      }
      expanded := expanded + 1;
      ghost var w := LiveEntry(m, t, heap, d, settled, e, expanded);
      if Exceeds(expanded, stateBound) {
        return Failed(SearchTruncated);
      }
      if e.state.index == |t| && e.state.activity in m.endActivities {
        return Aligned(e.cost, expanded);
      }
      heap, d := Settle(m, t, adjacency, heap, rest, d, e, settled, w);
      settled := settled + {e.state};
      SettledAreStates(m, t, heap, d, settled);
    }
    EmptyHeapMeansExhausted(m, t, d, settled);
    return Failed(NoAlignment);
  }
}
