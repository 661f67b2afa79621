/** The one-pass summary of an event-row stream: one open case and the running totals of one window. */
module EventSummary {
  import opened Basics
  import opened EventLog
  import opened EventCounts

  datatype EdgeTotals = EdgeTotals(frequency: nat, duration: int)

  datatype ActivityTotals = ActivityTotals(cases: nat, occurrences: nat, starts: nat, ends: nat)

  datatype Summary = Summary(
    caseCount: nat,
    eventCount: nat,
    variants: map<seq<string>, nat>,
    dfg: map<(string, string), EdgeTotals>,
    activities: map<string, ActivityTotals>)

  function Variant(m: map<seq<string>, nat>, path: seq<string>): nat {
    if path in m then m[path] else 0
  }

  function Edge(m: map<(string, string), EdgeTotals>, a: string, b: string): EdgeTotals {
    if (a, b) in m then m[(a, b)] else EdgeTotals(0, 0)
  }

  function Activity(m: map<string, ActivityTotals>, a: string): ActivityTotals {
    if a in m then m[a] else ActivityTotals(0, 0, 0, 0)
  }

  // ---------- what a summary has to hold ----------

  ghost predicate VariantsOf(m: map<seq<string>, nat>, cases: seq<Case>) {
    forall p :: Variant(m, p) == VariantCount(cases, p) && (p in m <==> VariantCount(cases, p) > 0)
  }

  ghost predicate EdgesOf(m: map<(string, string), EdgeTotals>, cases: seq<Case>) {
    forall a, b ::
      Edge(m, a, b) == EdgeTotals(EdgeCount(cases, a, b), EdgeTime(cases, a, b)) && ((a, b) in m <==> EdgeCount(cases, a, b) > 0)
  }

  ghost predicate ActivitiesOf(m: map<string, ActivityTotals>, cases: seq<Case>) {
    forall a ::
      && Activity(m, a) == ActivityTotals(CasesWith(cases, a), TotalOccurrences(cases, a), Starts(cases, a), Ends(cases, a))
      && (a in m <==> TotalOccurrences(cases, a) > 0)
  }

  ghost predicate Summarizes(s: Summary, cases: seq<Case>) {
    && s.caseCount == |cases| && s.eventCount == EventCount(cases)
    && VariantsOf(s.variants, cases) && EdgesOf(s.dfg, cases) && ActivitiesOf(s.activities, cases)
  }

  // ---------- adding one case to the totals ----------

  lemma {:induction false} OccursIff(path: seq<string>, a: string)
    ensures Occurrences(path, a) > 0 <==> a in path
  {
    if path != [] {
      OccursIff(path[..|path| - 1], a);
      assert path == path[..|path| - 1] + [path[|path| - 1]];
    }
  }

  ghost predicate Added(m: map<string, ActivityTotals>, m': map<string, ActivityTotals>, path: seq<string>)
    requires path != []
  {
    && m'.Keys == m.Keys + (set a | a in path)
    && forall a ::
         var t := Activity(m, a);
         Activity(m', a) == ActivityTotals(
           t.cases + If(a in path), t.occurrences + Occurrences(path, a),
           t.starts + If(path[0] == a), t.ends + If(path[|path| - 1] == a))
  }

  method CountCases(activities: map<string, ActivityTotals>, path: seq<string>) returns (m: map<string, ActivityTotals>)
    ensures m.Keys == activities.Keys + (set a | a in path)
    ensures forall a :: Activity(m, a) == var t := Activity(activities, a); t.(cases := t.cases + If(a in path))
  {
    m := activities;
    var pending := set a | a in path;
    while pending != {}
      invariant pending <= set a | a in path
      invariant m.Keys == activities.Keys + ((set a | a in path) - pending)
      invariant forall a ::
        Activity(m, a) == var t := Activity(activities, a); t.(cases := t.cases + If(a in path && a !in pending))
    {
      var a :| a in pending;
      var t := Activity(m, a);
      m := m[a := t.(cases := t.cases + 1)];
      pending := pending - {a};
    }
  }

  method CountOccurrences(activities: map<string, ActivityTotals>, path: seq<string>) returns (m: map<string, ActivityTotals>)
    requires forall a | a in path :: a in activities
    ensures m.Keys == activities.Keys
    ensures forall a ::
      Activity(m, a) == var t := Activity(activities, a); t.(occurrences := t.occurrences + Occurrences(path, a))
  {
    m := activities;
    for i := 0 to |path|
      invariant m.Keys == activities.Keys
      invariant forall a ::
        Activity(m, a) == var t := Activity(activities, a); t.(occurrences := t.occurrences + Occurrences(path[..i], a))
    {
      var t := Activity(m, path[i]);
      assert path[..i + 1][..i] == path[..i];
      m := m[path[i] := t.(occurrences := t.occurrences + 1)];
    }
    assert path[..|path|] == path;
  }

  method CountActivities(activities: map<string, ActivityTotals>, path: seq<string>) returns (m: map<string, ActivityTotals>)
    requires path != []
    ensures Added(activities, m, path)
  {
    hide Occurrences;
    m := CountCases(activities, path);
    m := CountOccurrences(m, path);
    var first, last := path[0], path[|path| - 1];
    var t := Activity(m, first);
    m := m[first := t.(starts := t.starts + 1)];
    t := Activity(m, last);
    m := m[last := t.(ends := t.ends + 1)];
  }

  method CountEdges(edges: map<(string, string), EdgeTotals>, path: seq<string>, times: seq<int>)
    returns (m: map<(string, string), EdgeTotals>)
    requires path != [] && |times| == |path|
    ensures forall a, b ::
      && Edge(m, a, b) == (var t := Edge(edges, a, b); var n := StepCount(path);
                           EdgeTotals(t.frequency + Steps(path, n, a, b), t.duration + StepTime(path, times, n, a, b)))
      && ((a, b) in m <==> (a, b) in edges || Steps(path, StepCount(path), a, b) > 0)
  {
    m := edges;
    for i := 0 to |path| - 1
      invariant forall a, b ::
        && Edge(m, a, b) == (var t := Edge(edges, a, b);
                             EdgeTotals(t.frequency + Steps(path, i, a, b), t.duration + StepTime(path, times, i, a, b)))
        && ((a, b) in m <==> (a, b) in edges || Steps(path, i, a, b) > 0)
    {
      var t := Edge(m, path[i], path[i + 1]);
      m := m[(path[i], path[i + 1]) := EdgeTotals(t.frequency + 1, t.duration + (times[i + 1] - times[i]))];
    }
  }

  // ---------- one window ----------

  /** The case under way, put together from its path and its timestamps. */
  function CaseOf(id: int, path: seq<string>, times: seq<int>): (c: Case)
    requires |path| == |times|
    ensures Path(c) == path && Times(c) == times
  {
    Case(id, seq(|path|, i requires 0 <= i < |path| => Event(path[i], times[i])))
  }

  lemma CaseGrows(id: int, path: seq<string>, times: seq<int>, a: string, t: int)
    requires |path| == |times|
    ensures CaseOf(id, path + [a], times + [t]) == Case(id, CaseOf(id, path, times).events + [Event(a, t)])
    ensures path == [] ==> CaseOf(id, path + [a], times + [t]) == Case(id, [Event(a, t)])
  {
    assert CaseOf(id, path + [a], times + [t]).events == CaseOf(id, path, times).events + [Event(a, t)];
  }

  class WindowState {
    var caseCount: nat
    var eventCount: nat
    var variants: map<seq<string>, nat>
    var edges: map<(string, string), EdgeTotals>
    var activities: map<string, ActivityTotals>
    var currentCase: Option<int>
    var currentPath: seq<string>
    var currentTimestamps: seq<int>
    var expectedOrdinal: int
    /** The cases counted so far. */
    ghost var closed: seq<Case>

    ghost predicate Valid()
      reads this
    {
      && caseCount == |closed|
      && VariantsOf(variants, closed) && EdgesOf(edges, closed) && ActivitiesOf(activities, closed)
      && |currentPath| == |currentTimestamps|
      && (currentCase.Some? <==> currentPath != [])
      && expectedOrdinal == |currentPath| + 1
      && eventCount == EventCount(closed) + |currentPath|
    }

    ghost function Open(): Option<Case>
      requires Valid()
      reads this
    {
      if currentCase.Some? then Some(CaseOf(currentCase.value, currentPath, currentTimestamps)) else None
    }

    constructor ()
      ensures Valid() && closed == [] && Open() == None
    {
      caseCount, eventCount, variants, edges, activities := 0, 0, map[], map[], map[];
      currentCase, currentPath, currentTimestamps, expectedOrdinal := None, [], [], 1;
      closed := [];
    }

    /** Counts the open case, if there is one; the caller starts the next case or ends the window. */
    method FlushCase()
      requires Valid()
      modifies this`caseCount, this`variants, this`edges, this`activities, this`closed
      ensures closed == old(closed) + (if old(Open()).Some? then [old(Open()).value] else [])
      ensures caseCount == |closed| && eventCount == EventCount(closed)
      ensures VariantsOf(variants, closed) && EdgesOf(edges, closed) && ActivitiesOf(activities, closed)
    {
      hide VariantsOf, EdgesOf, ActivitiesOf, Added, EdgeCount, EdgeTime, Steps, StepTime, Variant;
      if currentCase.None? {
        assert closed + [] == closed;
        return;
      }
      ghost var c := CaseOf(currentCase.value, currentPath, currentTimestamps);
      var path := currentPath;
      ghost var v, e, a := variants, edges, activities;
      caseCount := caseCount + 1;
      variants := variants[path := Variant(variants, path) + 1];
      activities := CountActivities(activities, path);
      edges := CountEdges(edges, path, currentTimestamps);
      AddVariant(v, closed, c);
      AddActivities(a, activities, closed, c);
      AddEdges(e, edges, closed, c);
      closed := closed + [c];
      assert closed[..|closed| - 1] == old(closed);
    }

    /** Takes one row of the window; false when it is out of order. */
    method TakeRow(row: EventRow) returns (ordered: bool)
      requires Valid()
      modifies this
      ensures ordered <==> row.ordinal == NextOrdinal(old(Open()), row.caseId)
      ensures ordered ==>
        var event := Event(row.activity, row.timestamp);
        Valid() &&
        if old(Open()).Some? && old(Open()).value.id == row.caseId then
          closed == old(closed) && Open() == Some(Case(row.caseId, old(Open()).value.events + [event]))
        else
          && closed == old(closed) + (if old(Open()).Some? then [old(Open()).value] else [])
          && Open() == Some(Case(row.caseId, [event]))
    {
      hide VariantsOf, EdgesOf, ActivitiesOf, EventCount;
      if currentCase.Some? && row.caseId != currentCase.value {
        FlushCase();
        currentPath, currentTimestamps, expectedOrdinal := [], [], 1;
      }
      if row.ordinal != expectedOrdinal {
        return false;
      }
      CaseGrows(row.caseId, currentPath, currentTimestamps, row.activity, row.timestamp);
      currentCase := Some(row.caseId);
      currentPath := currentPath + [row.activity];
      currentTimestamps := currentTimestamps + [row.timestamp];
      eventCount := eventCount + 1;
      expectedOrdinal := expectedOrdinal + 1;
      return true;
    }
  }

  lemma AddVariant(m: map<seq<string>, nat>, cases: seq<Case>, c: Case)
    requires VariantsOf(m, cases)
    ensures VariantsOf(m[Path(c) := Variant(m, Path(c)) + 1], cases + [c])
  {
    assert (cases + [c])[..|cases|] == cases;
  }

  lemma AddActivities(m: map<string, ActivityTotals>, m': map<string, ActivityTotals>, cases: seq<Case>, c: Case)
    requires c.events != [] && ActivitiesOf(m, cases) && Added(m, m', Path(c))
    ensures ActivitiesOf(m', cases + [c])
  {
    assert (cases + [c])[..|cases|] == cases;
    var all, path := cases + [c], Path(c);
    forall a
      ensures Activity(m', a) == ActivityTotals(CasesWith(all, a), TotalOccurrences(all, a), Starts(all, a), Ends(all, a))
      ensures a in m' <==> TotalOccurrences(all, a) > 0
    {
      OccursIff(path, a);
      assert a in m' <==> a in m || a in path;
    }
  }

  lemma AddEdges(m: map<(string, string), EdgeTotals>, m': map<(string, string), EdgeTotals>, cases: seq<Case>, c: Case)
    requires EdgesOf(m, cases)
    requires forall a, b ::
      var path := Path(c);
      && Edge(m', a, b) == (var t := Edge(m, a, b); var n := StepCount(path);
                            EdgeTotals(t.frequency + Steps(path, n, a, b), t.duration + StepTime(path, Times(c), n, a, b)))
      && ((a, b) in m' <==> (a, b) in m || Steps(path, StepCount(path), a, b) > 0)
    ensures EdgesOf(m', cases + [c])
  {
    hide Steps, StepTime;
    assert (cases + [c])[..|cases|] == cases;
  }

  // ---------- the whole stream ----------

  /** Cases counted already in front of the cases still to be read. */
  function Behind(cases: seq<Case>, reading: Option<Reading>): Option<Reading> {
    match reading
    case None => None
    case Some(r) => Some(Reading(cases + r.cases, r.rest))
  }

  /** Summarizes the rows of window `w`; false when they are out of order. */
  method SummarizeWindow(rows: seq<EventRow>, w: int) returns (ordered: bool, summary: Summary, rest: seq<EventRow>)
    ensures ordered <==> ReadWindow(rows, w, None).Some?
    ensures ordered ==> rest == ReadWindow(rows, w, None).value.rest
    ensures ordered ==> Summarizes(summary, ReadWindow(rows, w, None).value.cases)
  {
    hide VariantsOf, EdgesOf, ActivitiesOf, EventCount;
    var state := new WindowState();
    rest := rows;
    summary := Summary(0, 0, map[], map[], map[]);
    BehindNothing(ReadWindow(rows, w, None));
    while rest != [] && rest[0].window == w
      invariant state.Valid() && fresh(state)
      invariant ReadWindow(rows, w, None) == Behind(state.closed, ReadWindow(rest, w, state.Open()))
      decreases |rest|
    {
      ghost var closed, open := state.closed, state.Open();
      ordered := state.TakeRow(rest[0]);
      if !ordered {
        return;
      }
      BehindCase(closed, open, rest, w);
      rest := rest[1..];
    }
    state.FlushCase();
    ordered := true;
    summary := Summary(state.caseCount, state.eventCount, state.variants, state.edges, state.activities);
  }

  lemma BehindNothing(reading: Option<Reading>)
    ensures Behind([], reading) == reading
  {
    if reading.Some? {
      assert [] + reading.value.cases == reading.value.cases;
    }
  }

  lemma BehindCase(closed: seq<Case>, open: Option<Case>, rows: seq<EventRow>, w: int)
    requires rows != [] && rows[0].window == w && rows[0].ordinal == NextOrdinal(open, rows[0].caseId)
    ensures
      var event := Event(rows[0].activity, rows[0].timestamp);
      Behind(closed, ReadWindow(rows, w, open)) ==
      if open.Some? && open.value.id == rows[0].caseId then
        Behind(closed, ReadWindow(rows[1..], w, Some(Case(rows[0].caseId, open.value.events + [event]))))
      else
        Behind(closed + (if open.Some? then [open.value] else []),
               ReadWindow(rows[1..], w, Some(Case(rows[0].caseId, [event]))))
  {
    var row := rows[0];
    if !(open.Some? && open.value.id == row.caseId) {
      var later := ReadWindow(rows[1..], w, Some(Case(row.caseId, [Event(row.activity, row.timestamp)])));
      if later.Some? {
        var front := if open.Some? then [open.value] else [];
        assert closed + (front + later.value.cases) == (closed + front) + later.value.cases;
      }
    }
  }

  function Following(windows: seq<seq<Case>>, r: LogResult<seq<Case>>): LogResult<seq<Case>> {
    match r
    case Failed(error) => Failed(error)
    case Log(others) => Log(windows + others)
  }

  /**
   * The one-pass summary agrees with reading the whole log first: the same streams fail, with the same error,
   * and every window's totals are those of its cases.
   */
  method SummarizeRows(rows: seq<EventRow>, windowCount: int) returns (r: LogResult<Summary>)
    ensures windowCount <= 0 ==> r == Failed(BadWindowCount)
    ensures windowCount > 0 ==>
      match ReadLog(rows, 1, windowCount)
      case Failed(error) => r == Failed(error)
      case Log(log) => r.Log? && |r.windows| == |log| && forall i | 0 <= i < |log| :: Summarizes(r.windows[i], log[i])
  {
    hide ReadWindow, Summarizes;
    if windowCount <= 0 {
      return Failed(BadWindowCount);
    }
    var summaries: seq<Summary> := [];
    ghost var log: seq<seq<Case>> := [];
    var pending := rows;
    FollowingNothing(ReadLog(rows, 1, windowCount));
    for w := 1 to windowCount + 1
      invariant |summaries| == |log| && forall i | 0 <= i < |log| :: Summarizes(summaries[i], log[i])
      invariant ReadLog(rows, 1, windowCount) == Following(log, ReadLog(pending, w, windowCount + 1 - w))
    {
      FollowingWindow(log, pending, w, windowCount + 1 - w);
      var ordered, summary, rest := SummarizeWindow(pending, w);
      if !ordered {
        return Failed(NotOrdered);
      }
      log := log + [ReadWindow(pending, w, None).value.cases];
      summaries := summaries + [summary];
      pending := rest;
    }
    if pending != [] {
      return Failed(UnexpectedWindow(pending[0].window));
    }
    assert log + [] == log;
    r := Log(summaries);
  }

  lemma FollowingNothing(r: LogResult<seq<Case>>)
    ensures Following([], r) == r
  {
    if r.Log? {
      assert [] + r.windows == r.windows;
    }
  }

  lemma FollowingWindow(log: seq<seq<Case>>, rows: seq<EventRow>, w: int, windows: nat)
    requires windows > 0
    ensures
      match ReadWindow(rows, w, None)
      case None => Following(log, ReadLog(rows, w, windows)) == Failed(NotOrdered)
      case Some(reading) =>
        Following(log, ReadLog(rows, w, windows)) == Following(log + [reading.cases], ReadLog(reading.rest, w + 1, windows - 1))
  {
    var reading := ReadWindow(rows, w, None);
    if reading.Some? {
      var others := ReadLog(reading.value.rest, w + 1, windows - 1);
      if others.Log? {
        assert log + ([reading.value.cases] + others.windows) == (log + [reading.value.cases]) + others.windows;
      }
    }
  }
}
